/**
 * The planning loops of _mapped_frontier_upload_tasks
 * (src/cuphoton/xbeam/ingest_scheduler.py), with the CPU and GPU reductions
 * side by side: whichever files the GPU plans, the answer is PlanUploads.
 */
module FrontierPlanner {
  import opened Envelopes
  import opened Options
  import opened Frontier
  import opened Arithmetic

  // ----- folding one more set of entries -----

  lemma {:induction false} MinFrameConcat(a: seq<Entry>, b: seq<Entry>, lo: int, hi: int, start: int)
    ensures MinFrame(a + b, lo, hi, start) == MinFrame(b, lo, hi, MinFrame(a, lo, hi, start))
  {
    if b == [] {
      assert a + b == a;
    } else {
      MinFrameConcat(a, b[..|b| - 1], lo, hi, start);
      assert (a + b)[..|a + b| - 1] == a + b[..|b| - 1];
    }
  }

  lemma {:induction false} MaxStopConcat(a: seq<Entry>, b: seq<Entry>, lo: int, hi: int, stop: int)
    ensures MaxStop(a + b, lo, hi, stop) == MaxStop(b, lo, hi, MaxStop(a, lo, hi, stop))
  {
    if b == [] {
      assert a + b == a;
    } else {
      MaxStopConcat(a, b[..|b| - 1], lo, hi, stop);
      assert (a + b)[..|a + b| - 1] == a + b[..|b| - 1];
    }
  }

  lemma BoundsConcat(a: seq<Entry>, b: seq<Entry>, stops: seq<int>, starts: seq<int>, ends: seq<int>)
    requires |starts| == |stops| == |ends|
    ensures MinFrames(a + b, stops, starts) == MinFrames(b, stops, MinFrames(a, stops, starts))
    ensures MaxStops(a + b, stops, ends) == MaxStops(b, stops, MaxStops(a, stops, ends))
  {
    forall q | 0 <= q < |stops|
      ensures MinFrames(a + b, stops, starts)[q] == MinFrames(b, stops, MinFrames(a, stops, starts))[q]
      ensures MaxStops(a + b, stops, ends)[q] == MaxStops(b, stops, MaxStops(a, stops, ends))[q]
    {
      MinFrameConcat(a, b, Lower(stops, q), stops[q], starts[q]);
      MaxStopConcat(a, b, Lower(stops, q), stops[q], ends[q]);
    }
  }

  // ----- duplicate destinations -----

  predicate SlotTaken(entries: seq<Entry>, s: int) {
    exists i :: 0 <= i < |entries| && entries[i].slot == s
  }

  lemma DistinctAppend(a: seq<Entry>, b: seq<Entry>)
    ensures DistinctSlots(a + b) <==>
      DistinctSlots(a) && DistinctSlots(b) && forall i :: 0 <= i < |b| ==> !SlotTaken(a, b[i].slot)
  {
    var c := a + b;
    if DistinctSlots(c) {
      assert forall i :: 0 <= i < |a| ==> c[i] == a[i];
      assert forall i :: 0 <= i < |b| ==> c[|a| + i] == b[i];
    }
  }

  /** Mark the slots of a file's entries as used. */
  method MarkUsed(entries: seq<Entry>, used: array<bool>, ghost before: seq<Entry>)
    requires forall i :: 0 <= i < |entries| ==> 0 <= entries[i].slot < used.Length
    requires forall s :: 0 <= s < used.Length ==> (used[s] <==> SlotTaken(before, s))
    modifies used
    ensures forall s :: 0 <= s < used.Length ==> (used[s] <==> SlotTaken(before + entries, s))
  {
    assert before + entries[..0] == before;
    for n := 0 to |entries|
      invariant forall s :: 0 <= s < used.Length ==> (used[s] <==> SlotTaken(before + entries[..n], s))
    {
      used[entries[n].slot] := true;
      forall s | 0 <= s < used.Length ensures used[s] <==> SlotTaken(before + entries[..n + 1], s) {
        TakenStep(before, entries, n, s);
      }
    }
    assert entries[..|entries|] == entries;
  }

  lemma TakenStep(before: seq<Entry>, entries: seq<Entry>, n: nat, s: int)
    requires n < |entries|
    ensures SlotTaken(before + entries[..n + 1], s) <==> SlotTaken(before + entries[..n], s) || s == entries[n].slot
  {
    var a, b := before + entries[..n], before + entries[..n + 1];
    assert b == a + [entries[n]];
    if SlotTaken(a, s) {
      var i :| 0 <= i < |a| && a[i].slot == s;
      assert b[i].slot == s;
    }
    assert b[|a|] == entries[n];
  }

  // ----- one plan -----

  /** Device bounds of the files of a plan the GPU planned. */
  type DeviceBounds = map<nat, seq<(int, int)>>

  ghost predicate BoundsOf(gpu: DeviceBounds, plan: Plan, stops: seq<int>, n: nat)
    requires n <= |plan.files|
  {
    forall k :: k in gpu && k < n ==> AreBounds(Selected(plan.files[k]), stops, gpu[k])
  }

  ghost predicate AreBounds(entries: seq<Entry>, stops: seq<int>, bounds: seq<(int, int)>) {
    |bounds| == |stops|
    && forall q :: 0 <= q < |stops| ==> RangeBounds(entries, Lower(stops, q), stops[q], bounds[q])
  }

  lemma SelectedBucketed(plan: Plan, f: FilePlan, reference: FilePlan, stops: seq<int>)
    requires FileVerdict(plan, f, reference) == Fine
    requires Increasing(stops) && stops != [] && 0 <= stops[0] && stops[|stops| - 1] == plan.slotCount
    ensures Bucketed(Selected(f), stops)
  {
    SelectedInRange(plan, f, reference);
  }

  /**
   * Whether one file's selected destinations repeat: by the device plan when the
   * GPU takes an unordered mapping, by sorting when it does not, by comparing
   * neighbours when the mapping is ordered.
   */
  method FileDuplicates(entries: seq<Entry>, stops: seq<int>, onGpu: bool)
    returns (duplicate: bool, device: Option<seq<(int, int)>>)
    requires Bucketed(entries, stops) && forall e :: e in entries ==> 0 <= e.frame
    ensures duplicate <==> !DistinctSlots(entries)
    ensures device.Some? ==> !duplicate && AreBounds(entries, stops, device.value)
  {
    device := None;
    if IsOrdered(entries) {
      SortedNeighbours(entries);
      duplicate := !NeighboursDiffer(entries);
    } else if onGpu {
      var r := GpuFrontierBounds(entries, stops);
      match r
      case DuplicateSlot => duplicate := true;
      case Bounds(b) =>
        duplicate := false;
        device := Some(b);
    } else {
      duplicate := !DistinctSlots(entries);
    }
  }

  /** The checks of one file against the slots its plan has used so far. */
  method CheckFile(plan: Plan, f: FilePlan, reference: FilePlan, stops: seq<int>, onGpu: bool,
                   used: array<bool>, ghost before: seq<Entry>)
    returns (v: Verdict, device: Option<seq<(int, int)>>)
    requires used.Length == plan.slotCount && DistinctSlots(before)
    requires forall s :: 0 <= s < used.Length ==> (used[s] <==> SlotTaken(before, s))
    requires Increasing(stops) && stops != [] && 0 <= stops[0] && stops[|stops| - 1] == plan.slotCount
    modifies used
    ensures v == if FileVerdict(plan, f, reference) != Fine then FileVerdict(plan, f, reference)
                 else if !DistinctSlots(before + Selected(f)) then Raise(DuplicateDestination)
                 else Fine
    ensures v == Fine ==> forall s :: 0 <= s < used.Length ==> (used[s] <==> SlotTaken(before + Selected(f), s))
    ensures v == Fine && device.Some? ==> AreBounds(Selected(f), stops, device.value)
  {
    v := FileVerdict(plan, f, reference);
    device := None;
    if v != Fine {
      return;
    }
    var entries := Selected(f);
    SelectedInRange(plan, f, reference);
    var duplicate;
    duplicate, device := FileDuplicates(entries, stops, onGpu);
    DistinctAppend(before, entries);
    if duplicate || exists i :: 0 <= i < |entries| && used[entries[i].slot] {
      v := Raise(DuplicateDestination);
    } else {
      MarkUsed(entries, used, before);
    }
  }

  method CheckFiles(plan: Plan, references: seq<FilePlan>, stops: seq<int>, onGpu: set<nat>)
    returns (v: Verdict, gpu: DeviceBounds)
    requires |plan.files| == |references| && 0 < plan.slotCount
    requires Increasing(stops) && stops != [] && 0 <= stops[0] && stops[|stops| - 1] == plan.slotCount
    ensures v == FilesVerdict(plan, references, |plan.files|)
    ensures v == Fine ==> BoundsOf(gpu, plan, stops, |plan.files|)
  {
    var used := new bool[plan.slotCount](_ => false);
    gpu := map[];
    for n := 0 to |plan.files|
      invariant FilesVerdict(plan, references, n) == Fine
      invariant forall s :: 0 <= s < used.Length ==> (used[s] <==> SlotTaken(PlanSelected(plan.files, n), s))
      invariant BoundsOf(gpu, plan, stops, n)
      invariant forall k :: k in gpu ==> k < n
    {
      FilesFine(plan, references, n);
      var device;
      v, device := CheckFile(plan, plan.files[n], references[n], stops, n in onGpu, used, PlanSelected(plan.files, n));
      if v != Fine {
        FilesStop(plan, references, n + 1, |plan.files|);
        return;
      }
      if device.Some? {
        gpu := gpu[n := device.value];
      }
    }
    v := Fine;
  }

  /** The first verdict other than Fine is the verdict of all the files. */
  lemma {:induction false} FilesStop(plan: Plan, references: seq<FilePlan>, n: nat, m: nat)
    requires n <= m <= |plan.files| == |references| && FilesVerdict(plan, references, n) != Fine
    ensures FilesVerdict(plan, references, m) == FilesVerdict(plan, references, n)
    decreases m
  {
    if n < m {
      FilesStop(plan, references, n, m - 1);
    }
  }

  // ----- one file of a group -----

  /** The envelope of the frames of all plans read from file k. */
  ghost predicate Folded(group: seq<Plan>, k: nat, n: nat, stops: seq<int>, starts: seq<int>, ends: seq<int>, unsplit: Span)
    requires Uniform(group) && k < |group[0].files| && n <= |group|
  {
    var entries := GroupSelected(group, k, n);
    var count, slots := group[0].files[k].frameCount, group[0].slotCount;
    && starts == MinFrames(entries, stops, seq(|stops|, _ => count))
    && ends == MaxStops(entries, stops, seq(|stops|, _ => 0))
    && unsplit == Span(MinFrame(entries, 0, slots, count), MaxStop(entries, 0, slots, 0))
  }

  lemma FoldStep(group: seq<Plan>, k: nat, n: nat, stops: seq<int>, starts: seq<int>, ends: seq<int>, unsplit: Span)
    requires Uniform(group) && k < |group[0].files| && n < |group|
    requires |starts| == |stops| == |ends| && Folded(group, k, n, stops, starts, ends, unsplit)
    ensures var entries := Selected(group[n].files[k]);
            var slots := group[0].slotCount;
            Folded(group, k, n + 1, stops, MinFrames(entries, stops, starts), MaxStops(entries, stops, ends),
                   Span(MinFrame(entries, 0, slots, unsplit.start), MaxStop(entries, 0, slots, unsplit.stop)))
  {
    var entries := Selected(group[n].files[k]);
    var count, slots := group[0].files[k].frameCount, group[0].slotCount;
    BoundsConcat(GroupSelected(group, k, n), entries, stops, seq(|stops|, _ => count), seq(|stops|, _ => 0));
    MinFrameConcat(GroupSelected(group, k, n), entries, 0, slots, count);
    MaxStopConcat(GroupSelected(group, k, n), entries, 0, slots, 0);
  }

  /** Lower the starts and raise the ends of file k, plan by plan. */
  method FoldPlans(group: seq<Plan>, k: nat, stops: seq<int>, device: seq<Option<seq<(int, int)>>>,
                   starts: array<int>, ends: array<int>)
    returns (unsplit: Span, unordered: bool)
    requires Uniform(group) && k < |group[0].files| && |device| == |group|
    requires starts.Length == |stops| == ends.Length && starts != ends
    requires forall i :: 0 <= i < |group| ==> Bucketed(Selected(group[i].files[k]), stops)
    requires forall i :: 0 <= i < |group| && device[i].Some? ==>
      AreBounds(Selected(group[i].files[k]), stops, device[i].value)
    requires starts[..] == seq(|stops|, _ => group[0].files[k].frameCount) && ends[..] == seq(|stops|, _ => 0)
    modifies starts, ends
    ensures Folded(group, k, |group|, stops, starts[..], ends[..], unsplit)
    ensures unordered == AnyUnordered(group, k, |group|)
  {
    unsplit := Span(group[0].files[k].frameCount, 0);
    unordered := false;
    NoEntriesNoChange(stops, starts[..]);
    NoEntriesNoChange(stops, ends[..]);
    for n := 0 to |group|
      invariant Folded(group, k, n, stops, starts[..], ends[..], unsplit)
      invariant unordered == AnyUnordered(group, k, n)
    {
      var entries := Selected(group[n].files[k]);
      FoldStep(group, k, n, stops, starts[..], ends[..], unsplit);
      unsplit := Span(MinFrame(entries, 0, group[0].slotCount, unsplit.start),
                      MaxStop(entries, 0, group[0].slotCount, unsplit.stop));
      ReduceEntries(entries, stops, device[n], starts, ends);
      unordered := unordered || !IsOrdered(entries);
    }
  }

  /**
   * The envelopes of file k for every frontier, and whether splitting the file
   * there reads too much.
   */
  method PlanFile(group: seq<Plan>, k: nat, frontiers: nat, gpu: seq<DeviceBounds>)
    returns (spans: seq<Span>, excessive: bool)
    requires FineGroup(group) && Uniform(group) && k < |group[0].files|
    requires 0 < frontiers <= group[0].slotCount && |gpu| == |group|
    requires forall i :: 0 <= i < |group| ==>
      BoundsOf(gpu[i], group[i], Stops(group[0].slotCount, frontiers), |group[i].files|)
    ensures |spans| == frontiers
    ensures forall q :: 0 <= q < frontiers ==> spans[q] == FrontierSpan(group, k, frontiers, q)
    ensures excessive == FileExcessive(group, k, frontiers)
  {
    hide FileSpan, FrontierSpan, Folded, Bucketed, AreBounds, BoundsOf, AnyUnordered, FineGroup, Edge;
    var count := group[0].files[k].frameCount;
    var stops := Stops(group[0].slotCount, frontiers);
    var starts := new int[frontiers](_ => count);
    var ends := new int[frontiers](_ => 0);
    GroupBucketed(group, k, frontiers);
    var device := seq(|group|, i requires 0 <= i < |group| => if k in gpu[i] then Some(gpu[i][k]) else None);
    forall i | 0 <= i < |group| && device[i].Some?
      ensures AreBounds(Selected(group[i].files[k]), stops, device[i].value)
    {
      BoundsOfFile(gpu[i], group[i], stops, k);
    }
    var unsplit, unordered := FoldPlans(group, k, stops, device, starts, ends);
    FoldedSpans(group, k, frontiers, starts[..], ends[..], unsplit);
    var total;
    spans, total := JoinSpans(group, k, frontiers, starts, ends);
    excessive := unsplit.start < unsplit.stop && unordered && total * 100 > (unsplit.stop - unsplit.start) * 105;
  }

  lemma BoundsOfFile(gpu: DeviceBounds, plan: Plan, stops: seq<int>, k: nat)
    requires k < |plan.files| && k in gpu && BoundsOf(gpu, plan, stops, |plan.files|)
    ensures AreBounds(Selected(plan.files[k]), stops, gpu[k])
  {
  }

  /** The spans of file k and the frames they read in all. */
  method JoinSpans(group: seq<Plan>, k: nat, frontiers: nat, starts: array<int>, ends: array<int>)
    returns (spans: seq<Span>, total: int)
    requires Uniform(group) && k < |group[0].files| && starts.Length == ends.Length == frontiers
    requires forall q :: 0 <= q < frontiers ==> Span(starts[q], ends[q]) == FrontierSpan(group, k, frontiers, q)
    ensures |spans| == frontiers
    ensures forall q :: 0 <= q < frontiers ==> spans[q] == FrontierSpan(group, k, frontiers, q)
    ensures total == SplitTotal(group, k, frontiers, frontiers)
  {
    hide FrontierSpan;
    spans, total := [], 0;
    for q := 0 to frontiers
      invariant |spans| == q
      invariant forall r :: 0 <= r < q ==> spans[r] == FrontierSpan(group, k, frontiers, r)
      invariant total == SplitTotal(group, k, frontiers, q)
    {
      spans := spans + [Span(starts[q], ends[q])];
      total := total + SpanLength(Span(starts[q], ends[q]));
    }
  }

  lemma GroupBucketed(group: seq<Plan>, k: nat, frontiers: nat)
    requires FineGroup(group) && Uniform(group) && k < |group[0].files| && 0 < frontiers <= group[0].slotCount
    ensures forall i :: 0 <= i < |group| ==> Bucketed(Selected(group[i].files[k]), Stops(group[0].slotCount, frontiers))
  {
    GroupShape(group);
    StopsBucket(group[0].slotCount, frontiers);
    forall i | 0 <= i < |group|
      ensures Bucketed(Selected(group[i].files[k]), Stops(group[0].slotCount, frontiers))
    {
      SelectedBucketed(group[i], group[i].files[k], group[0].files[k], Stops(group[0].slotCount, frontiers));
    }
  }

  lemma FoldedSpans(group: seq<Plan>, k: nat, frontiers: nat, starts: seq<int>, ends: seq<int>, unsplit: Span)
    requires Uniform(group) && k < |group[0].files| && 0 < frontiers <= group[0].slotCount
    requires Folded(group, k, |group|, Stops(group[0].slotCount, frontiers), starts, ends, unsplit)
    ensures |starts| == |ends| == frontiers
    ensures forall q :: 0 <= q < frontiers ==> Span(starts[q], ends[q]) == FrontierSpan(group, k, frontiers, q)
    ensures unsplit == FileSpan(group, k, 0, group[0].slotCount)
  {
    StopsBucket(group[0].slotCount, frontiers);
  }

  /** One plan's contribution by whichever reduction applies to it. */
  method ReduceEntries(entries: seq<Entry>, stops: seq<int>, device: Option<seq<(int, int)>>,
                       starts: array<int>, ends: array<int>)
    requires starts.Length == |stops| == ends.Length && starts != ends && Bucketed(entries, stops)
    requires device.Some? ==> AreBounds(entries, stops, device.value)
    modifies starts, ends
    ensures starts[..] == MinFrames(entries, stops, old(starts[..]))
    ensures ends[..] == MaxStops(entries, stops, old(ends[..]))
  {
    if entries == [] {
      NoEntriesNoChange(stops, starts[..]);
      NoEntriesNoChange(stops, ends[..]);
    } else if IsOrdered(entries) {
      CutBounds(entries, stops, starts, ends);
    } else if device.Some? {
      MergeBounds(entries, stops, device.value, starts, ends);
    } else {
      ScatterMinimum(entries, stops, starts);
      ScatterMaximum(entries, stops, ends);
    }
  }

  // ----- whole groups -----

  lemma {:induction false} PlansStop(group: seq<Plan>, n: nat, m: nat)
    requires Uniform(group) && n <= m <= |group| && PlansVerdict(group, n) != Fine
    ensures PlansVerdict(group, m) == PlansVerdict(group, n)
    decreases m
  {
    if n < m {
      PlansStop(group, n, m - 1);
    }
  }

  lemma {:induction false} GroupsStop(groups: seq<seq<Plan>>, n: nat, m: nat)
    requires n <= m <= |groups| && GroupsVerdict(groups, n) != Fine
    ensures GroupsVerdict(groups, m) == GroupsVerdict(groups, n)
    decreases m
  {
    if n < m {
      GroupsStop(groups, n, m - 1);
    }
  }

  /** Device bounds found for every plan of a group cut into `frontiers`. */
  ghost predicate GroupBounds(group: seq<Plan>, frontiers: nat, gpu: seq<DeviceBounds>) {
    |gpu| == |group| && group != [] && frontiers > 0
    && forall i :: 0 <= i < |group| ==>
      BoundsOf(gpu[i], group[i], Stops(group[0].slotCount, frontiers), |group[i].files|)
  }

  method CheckPlan(plan: Plan, reference: Plan, frontiers: nat, onGpu: set<nat>)
    returns (v: Verdict, bounds: DeviceBounds)
    requires |plan.files| == |reference.files| && plan.slotCount == reference.slotCount
    requires 0 < frontiers && (reference.slotCount > 0 ==> frontiers <= reference.slotCount)
    ensures v == PlanVerdict(plan, reference)
    ensures v == Fine ==> BoundsOf(bounds, plan, Stops(reference.slotCount, frontiers), |plan.files|)
  {
    bounds := map[];
    if !(0 < plan.slotCount <= INT32_MAX) {
      v := Raise(SlotCountRange);
    } else if plan.frameBytes != reference.frameBytes || plan.payloadBytes != reference.payloadBytes {
      v := Raise(Geometry);
    } else {
      StopsBucket(reference.slotCount, frontiers);
      v, bounds := CheckFiles(plan, reference.files, Stops(reference.slotCount, frontiers), onGpu);
    }
  }

  method CheckGroup(group: seq<Plan>, frontiers: nat, onGpu: nat -> set<nat>)
    returns (v: Verdict, gpu: seq<DeviceBounds>)
    requires 0 < frontiers && (group != [] && group[0].slotCount > 0 ==> frontiers <= group[0].slotCount)
    ensures v == GroupVerdict(group)
    ensures v == Fine ==> GroupBounds(group, frontiers, gpu)
  {
    gpu := [];
    if group == [] || exists i :: 0 <= i < |group| && group[i].streaming {
      return Decline, gpu;
    }
    var first := group[0];
    if first.frameBytes <= 32 || first.frameBytes % 8 != 0 || first.payloadBytes != first.frameBytes - 32 {
      return Raise(UnalignedHeader), gpu;
    }
    if exists i :: 0 <= i < |group| && group[i].slotCount != first.slotCount {
      return Decline, gpu;
    }
    if !Uniform(group) {
      return Decline, gpu;
    }
    v, gpu := CheckPlans(group, frontiers, onGpu);
  }

  method CheckPlans(group: seq<Plan>, frontiers: nat, onGpu: nat -> set<nat>)
    returns (v: Verdict, gpu: seq<DeviceBounds>)
    requires Uniform(group) && forall i :: 0 <= i < |group| ==> group[i].slotCount == group[0].slotCount
    requires 0 < frontiers && (group[0].slotCount > 0 ==> frontiers <= group[0].slotCount)
    ensures v == PlansVerdict(group, |group|)
    ensures v == Fine ==> GroupBounds(group, frontiers, gpu)
  {
    hide PlanVerdict, BoundsOf;
    gpu := [];
    for n := 0 to |group|
      invariant PlansVerdict(group, n) == Fine && |gpu| == n
      invariant forall i :: 0 <= i < n ==>
        BoundsOf(gpu[i], group[i], Stops(group[0].slotCount, frontiers), |group[i].files|)
    {
      var bounds;
      v, bounds := CheckPlan(group[n], group[0], frontiers, onGpu(n));
      if v != Fine {
        PlansStop(group, n + 1, |group|);
        return;
      }
      gpu := gpu + [bounds];
    }
    v := Fine;
  }

  /** Envelopes of the first n files of a group at every frontier. */
  ghost predicate SpansOf(group: seq<Plan>, frontiers: nat, spans: seq<seq<Span>>, n: nat) {
    Uniform(group) && n <= |group[0].files| && |spans| == n
    && forall k :: 0 <= k < n ==> FileSpans(group, k, frontiers, spans[k])
  }

  ghost predicate FileSpans(group: seq<Plan>, k: nat, frontiers: nat, spans: seq<Span>)
    requires Uniform(group) && k < |group[0].files|
  {
    |spans| == frontiers && forall q :: 0 <= q < frontiers ==> spans[q] == FrontierSpan(group, k, frontiers, q)
  }

  /** Envelopes of every file of a group. */
  ghost predicate GroupSpans(group: seq<Plan>, frontiers: nat, spans: seq<seq<Span>>) {
    Uniform(group) && SpansOf(group, frontiers, spans, |group[0].files|)
  }

  method PlanGroup(group: seq<Plan>, frontiers: nat, gpu: seq<DeviceBounds>)
    returns (spans: seq<seq<Span>>, excessive: bool)
    requires FineGroup(group) && Uniform(group) && 0 < frontiers <= group[0].slotCount
    requires GroupBounds(group, frontiers, gpu)
    ensures GroupSpans(group, frontiers, spans)
    ensures excessive == GroupExcessive(group, frontiers, |group[0].files|)
  {
    hide FileExcessive, FrontierSpan, GroupVerdict;
    spans, excessive := [], false;
    for k := 0 to |group[0].files|
      invariant SpansOf(group, frontiers, spans, k)
      invariant excessive == GroupExcessive(group, frontiers, k)
    {
      var fileSpans, tooMuch := PlanFile(group, k, frontiers, gpu);
      spans := spans + [fileSpans];
      excessive := excessive || tooMuch;
    }
  }

  lemma SpanSliceable(group: seq<Plan>, p: nat, frontiers: nat, q: nat, k: nat, spans: seq<seq<Span>>)
    requires Sliceable(group, frontiers) && p < |group| && q < frontiers && k < |group[0].files|
    requires GroupSpans(group, frontiers, spans)
    ensures |spans| == |group[0].files| && |spans[k]| == frontiers
    ensures spans[k][q] == FrontierSpan(group, k, frontiers, q)
    ensures ShapeFits(group[p].files[k]) && |group[p].files| == |group[0].files|
    ensures SpanFits(spans[k][q], group[p].files[k].frameCount)
  {
    hide FrontierSpan;
    assert ShapeMatches(group, p, k);
    assert FileSpans(group, k, frontiers, spans[k]);
    assert SpanFits(FrontierSpan(group, k, frontiers, q), group[0].files[k].frameCount);
  }

  /** The sliced files of one plan at one frontier. */
  method SliceOne(group: seq<Plan>, p: nat, frontiers: nat, q: nat, spans: seq<seq<Span>>) returns (plan: Plan)
    requires Sliceable(group, frontiers) && p < |group| && q < frontiers
    requires GroupSpans(group, frontiers, spans)
    ensures plan == SlicePlan(group, p, frontiers, q)
  {
    hide Edge, FrontierSpan, FileSpans, SliceFile, Sliceable;
    var first, stop := Edge(group[0].slotCount, frontiers, q), Edge(group[0].slotCount, frontiers, q + 1);
    var files: seq<FilePlan> := [];
    for k := 0 to |group[0].files|
      invariant files == SliceFiles(group, p, frontiers, q, k)
    {
      SpanSliceable(group, p, frontiers, q, k, spans);
      if spans[k][q].start < spans[k][q].stop {
        files := files + [SliceFile(group[p].files[k], first, stop, spans[k][q])];
      }
    }
    plan := Plan(group[p].frameBytes, group[p].payloadBytes, stop - first, files, false);
  }

  method BuildTask(groups: seq<seq<Plan>>, chunkBytes: seq<int>, frontiers: nat, q: nat, g: nat, spans: seq<seq<Span>>)
    returns (task: Task)
    requires g < |groups| == |chunkBytes| && q < frontiers && Sliceable(groups[g], frontiers)
    requires GroupSpans(groups[g], frontiers, spans)
    ensures task == SliceTask(groups, chunkBytes, frontiers, q, g)
  {
    var plans: seq<Plan> := [];
    for p := 0 to |groups[g]|
      invariant |plans| == p
      invariant forall i :: 0 <= i < p ==> plans[i] == SlicePlan(groups[g], i, frontiers, q)
    {
      var plan := SliceOne(groups[g], p, frontiers, q, spans);
      plans := plans + [plan];
    }
    var slots := groups[g][0].slotCount;
    task := Task(q, g, plans, Edge(slots, frontiers, q), Edge(slots, frontiers, q + 1), chunkBytes[g]);
  }

  method BuildTasks(groups: seq<seq<Plan>>, chunkBytes: seq<int>, frontiers: nat, spans: seq<seq<seq<Span>>>)
    returns (tasks: seq<Task>)
    requires |groups| == |chunkBytes| == |spans| && groups != []
    requires forall g :: 0 <= g < |groups| ==> Sliceable(groups[g], frontiers)
    requires forall g :: 0 <= g < |groups| ==> GroupSpans(groups[g], frontiers, spans[g])
    ensures tasks == AllTasks(groups, chunkBytes, frontiers)
  {
    var all := AllTasks(groups, chunkBytes, frontiers);
    tasks := [];
    for frontier := 0 to frontiers
      invariant |tasks| == frontier * |groups| <= |all| && tasks == all[..frontier * |groups|]
    {
      RowFits(frontier, |groups|, frontiers);
      for g := 0 to |groups|
        invariant |tasks| == frontier * |groups| + g <= |all| && tasks == all[..frontier * |groups| + g]
      {
        TaskAt(groups, chunkBytes, frontiers, frontier, g);
        var task := BuildTask(groups, chunkBytes, frontiers, frontier, g, spans[g]);
        tasks := tasks + [task];
      }
    }
    assert all[..|all|] == all;
  }

  lemma RowFits(row: nat, width: nat, rows: nat)
    requires row < rows
    ensures row * width + width == (row + 1) * width <= rows * width
  {
    MulMonotone(width, row + 1, rows);
  }

  lemma TaskAt(groups: seq<seq<Plan>>, chunkBytes: seq<int>, frontiers: nat, q: nat, g: nat)
    requires |groups| == |chunkBytes| && q < frontiers && g < |groups|
    requires forall g :: 0 <= g < |groups| ==> Sliceable(groups[g], frontiers)
    ensures var t := q * |groups| + g;
            var all := AllTasks(groups, chunkBytes, frontiers);
            t < |all| && all[t] == SliceTask(groups, chunkBytes, frontiers, q, g)
  {
    RowFits(q, |groups|, frontiers);
    DivUnique(q * |groups| + g, |groups|, q, g);
  }

  /**
   * The planner. `onGpu` says which unordered files the device planner takes
   * (mode, size and memory decide that); the answer does not depend on it.
   */
  method MappedFrontierUploadTasks(groups: seq<seq<Plan>>, chunkBytes: seq<int>, frontierCount: int,
                                   onGpu: (nat, nat) -> set<nat>)
    returns (r: Outcome)
    ensures r == PlanUploads(groups, chunkBytes, frontierCount)
  {
    if frontierCount <= 1 || groups == [] {
      return Declined;
    }
    if |chunkBytes| != |groups| {
      return Raised(ChunkSizes);
    }
    var v, gpu := CheckGroups(groups, frontierCount, onGpu);
    match v
    case Decline => r := Declined;
    case Raise(e) => r := Raised(e);
    case Fine =>
      if EffectiveFrontiers(groups, frontierCount) <= 1 {
        return Declined;
      }
      r := SplitGroups(groups, chunkBytes, frontierCount, gpu);
  }

  method CheckGroups(groups: seq<seq<Plan>>, frontierCount: int, onGpu: (nat, nat) -> set<nat>)
    returns (v: Verdict, gpu: seq<seq<DeviceBounds>>)
    ensures v == GroupsVerdict(groups, |groups|)
    ensures v == Fine ==> |gpu| == |groups|
    ensures v == Fine ==> forall g :: 0 <= g < |groups| ==>
      GroupBounds(groups[g], MaxInt(1, EffectiveFrontiers(groups, frontierCount)), gpu[g])
  {
    hide GroupVerdict, GroupBounds, MinSlots;
    var frontiers := EffectiveFrontiers(groups, frontierCount);
    MinSlotsBound(groups, |groups|, frontierCount);
    gpu := [];
    for n := 0 to |groups|
      invariant GroupsVerdict(groups, n) == Fine && |gpu| == n
      invariant forall g :: 0 <= g < n ==> GroupBounds(groups[g], MaxInt(1, frontiers), gpu[g])
    {
      var bounds;
      v, bounds := CheckGroup(groups[n], MaxInt(1, frontiers), p => if frontiers > 1 then onGpu(n, p) else {});
      if v != Fine {
        GroupsStop(groups, n + 1, |groups|);
        return;
      }
      gpu := gpu + [bounds];
    }
    v := Fine;
  }

  lemma SliceableSlots(group: seq<Plan>, frontiers: nat)
    requires Sliceable(group, frontiers)
    ensures 0 < frontiers <= group[0].slotCount
  {
  }

  method SplitGroups(groups: seq<seq<Plan>>, chunkBytes: seq<int>, frontierCount: int, gpu: seq<seq<DeviceBounds>>)
    returns (r: Outcome)
    requires Splittable(groups, frontierCount) && |chunkBytes| == |groups| == |gpu|
    requires forall g :: 0 <= g < |groups| ==> GroupBounds(groups[g], EffectiveFrontiers(groups, frontierCount), gpu[g])
    ensures Excessive(groups, EffectiveFrontiers(groups, frontierCount), |groups|) ==> r == Declined
    ensures !Excessive(groups, EffectiveFrontiers(groups, frontierCount), |groups|) ==>
      (forall g :: 0 <= g < |groups| ==> Sliceable(groups[g], EffectiveFrontiers(groups, frontierCount)))
      && r == Tasks(AllTasks(groups, chunkBytes, EffectiveFrontiers(groups, frontierCount)))
  {
    hide FineGroup, Sliceable, GroupExcessive, GroupBounds, GroupSpans, MinSlots, AllTasks;
    var frontiers := EffectiveFrontiers(groups, frontierCount);
    SplittableGroups(groups, frontierCount);
    var spans: seq<seq<seq<Span>>> := [];
    var excessive := false;
    for n := 0 to |groups|
      invariant |spans| == n
      invariant forall g :: 0 <= g < n ==> GroupSpans(groups[g], frontiers, spans[g])
      invariant excessive == Excessive(groups, frontiers, n)
    {
      SliceableSlots(groups[n], frontiers);
      var groupSpans, tooMuch := PlanGroup(groups[n], frontiers, gpu[n]);
      spans := spans + [groupSpans];
      excessive := excessive || tooMuch;
    }
    if excessive {
      return Declined;
    }
    var tasks := BuildTasks(groups, chunkBytes, frontiers, spans);
    r := Tasks(tasks);
  }
}
