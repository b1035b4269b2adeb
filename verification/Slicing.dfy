/**
 * Why frontier slicing is invisible: the sliced tasks of a plan perform exactly
 * the writes of the whole plan, each inside its own destination window, so they
 * can run in any order. Writes are those of the strip-scatter kernels
 * (src/cuphoton/xbeam/cuda_ingest.py), one payload slot at a time.
 */
module Slicing {
  import opened Arithmetic
  import opened Envelopes
  import opened Options
  import opened Frontier

  /** A raw frame of a file. */
  datatype Source = Source(path: string, frame: int)

  /** Payload slot `slot` receives the payload of `source`. */
  datatype Write = Write(slot: int, source: Source)

  /** What the threads of mapping entry i write: the dense and the sparse kernel. */
  predicate KernelWrites(f: FilePlan, slotCount: int, i: nat, w: Write)
    requires ShapeFits(f) && i < |f.slots.value|
  {
    var destination := f.slots.value[i];
    if f.sources.None? then
      destination >= 0 && w == Write(destination, Source(f.path, f.firstFrame + i))
    else
      var source := f.sources.value[i];
      && 0 <= source < f.frameCount && 0 <= destination < slotCount
      && w == Write(destination, Source(f.path, f.firstFrame + source))
  }

  ghost predicate FileWrites(f: FilePlan, slotCount: int, w: Write) {
    ShapeFits(f) && exists i :: 0 <= i < |f.slots.value| && KernelWrites(f, slotCount, i, w)
  }

  ghost predicate PlanWrites(p: Plan, w: Write) {
    exists k :: 0 <= k < |p.files| && FileWrites(p.files[k], p.slotCount, w)
  }

  /** Every selected entry passes the guards of the kernels. */
  predicate InRange(f: FilePlan, slotCount: int) {
    ShapeFits(f) && forall e :: e in Selected(f) ==> 0 <= e.frame < f.frameCount && 0 <= e.slot < slotCount
  }

  lemma KernelIsSelection(f: FilePlan, slotCount: int, w: Write)
    requires InRange(f, slotCount)
    ensures FileWrites(f, slotCount, w) <==>
      w.source.path == f.path && Entry(w.source.frame - f.firstFrame, w.slot) in Selected(f)
  {
    var e := Entry(w.source.frame - f.firstFrame, w.slot);
    SelectedMembers(f, |f.slots.value|, e);
    if FileWrites(f, slotCount, w) {
      var i :| 0 <= i < |f.slots.value| && KernelWrites(f, slotCount, i, w);
      assert Picks(f, i, e);
    }
    if w.source.path == f.path && e in Selected(f) {
      var i :| 0 <= i < |f.slots.value| && Picks(f, i, e);
      assert KernelWrites(f, slotCount, i, w);
    }
  }

  // ----- one sliced file -----

  lemma {:induction false} SliceSparseMembers(slots: seq<int>, sources: seq<int>, first: int, stop: int, span: Span, n: nat, e: Entry)
    requires n <= |slots| == |sources|
    ensures e in SliceSparse(slots, sources, first, stop, span, n) <==>
      exists i :: 0 <= i < n && first <= slots[i] < stop && span.start <= sources[i] < span.stop
                  && e == Entry(sources[i] - span.start, slots[i] - first)
  {
    if n > 0 {
      SliceSparseMembers(slots, sources, first, stop, span, n - 1, e);
    }
  }

  /** Entry e of the slice stands for entry Entry(e.frame + span.start, e.slot + first) of the file. */
  lemma SelectedSlice(f: FilePlan, first: int, stop: int, span: Span, e: Entry)
    requires ShapeFits(f) && 0 <= first <= stop && 0 <= span.start < span.stop <= f.frameCount
    ensures ShapeFits(SliceFile(f, first, stop, span))
    ensures e in Selected(SliceFile(f, first, stop, span)) <==>
      && 0 <= e.slot < stop - first && 0 <= e.frame < span.stop - span.start
      && Entry(e.frame + span.start, e.slot + first) in Selected(f)
  {
    var g := SliceFile(f, first, stop, span);
    var origin := Entry(e.frame + span.start, e.slot + first);
    SelectedMembers(g, |g.slots.value|, e);
    SelectedMembers(f, |f.slots.value|, origin);
    if f.sources.None? {
      DenseSlice(f, first, stop, span, e);
    } else {
      SparseSlice(f, first, stop, span, e);
    }
  }

  ghost predicate Picked(f: FilePlan, e: Entry) {
    ShapeFits(f) && exists i :: 0 <= i < |f.slots.value| && Picks(f, i, e)
  }

  lemma DenseSlice(f: FilePlan, first: int, stop: int, span: Span, e: Entry)
    requires ShapeFits(f) && f.sources.None?
    requires 0 <= first <= stop && 0 <= span.start < span.stop <= f.frameCount
    ensures var g := SliceFile(f, first, stop, span);
            Picked(g, e) <==>
            && 0 <= e.slot < stop - first && 0 <= e.frame < span.stop - span.start
            && Picked(f, Entry(e.frame + span.start, e.slot + first))
  {
    var g := SliceFile(f, first, stop, span);
    var origin := Entry(e.frame + span.start, e.slot + first);
    if Picked(g, e) {
      var j :| 0 <= j < |g.slots.value| && Picks(g, j, e);
      assert Picks(f, span.start + j, origin);
    }
    if 0 <= e.slot < stop - first && 0 <= e.frame < span.stop - span.start
       && Picked(f, origin) {
      var i :| 0 <= i < |f.slots.value| && Picks(f, i, origin);
      assert Picks(g, i - span.start, e);
    }
  }

  lemma SparseSlice(f: FilePlan, first: int, stop: int, span: Span, e: Entry)
    requires ShapeFits(f) && f.sources.Some?
    requires 0 <= first <= stop && 0 <= span.start < span.stop <= f.frameCount
    ensures var g := SliceFile(f, first, stop, span);
            Picked(g, e) <==>
            && 0 <= e.slot < stop - first && 0 <= e.frame < span.stop - span.start
            && Picked(f, Entry(e.frame + span.start, e.slot + first))
  {
    var g := SliceFile(f, first, stop, span);
    var origin := Entry(e.frame + span.start, e.slot + first);
    var kept := SliceSparse(f.slots.value, f.sources.value, first, stop, span, |f.slots.value|);
    SliceSparseMembers(f.slots.value, f.sources.value, first, stop, span, |f.slots.value|, e);
    if Picked(g, e) {
      var j :| 0 <= j < |g.slots.value| && Picks(g, j, e);
      assert kept[j] == e && e in kept;
      var i :| 0 <= i < |f.slots.value| && first <= f.slots.value[i] < stop
               && span.start <= f.sources.value[i] < span.stop
               && e == Entry(f.sources.value[i] - span.start, f.slots.value[i] - first);
      assert Picks(f, i, origin);
    }
    if 0 <= e.slot < stop - first && 0 <= e.frame < span.stop - span.start
       && Picked(f, origin) {
      var i :| 0 <= i < |f.slots.value| && Picks(f, i, origin);
      assert first <= f.slots.value[i] < stop && span.start <= f.sources.value[i] < span.stop;
      assert e in kept;
      var j :| 0 <= j < |kept| && kept[j] == e;
      assert Picks(g, j, e);
    }
  }

  // ----- one sliced plan -----

  predicate Live(group: seq<Plan>, frontiers: nat, q: nat, k: nat)
    requires Uniform(group) && k < |group[0].files| && q < frontiers
  {
    SpanLength(FrontierSpan(group, k, frontiers, q)) > 0
  }

  /** Slice of file k of plan p for frontier q. */
  function FileSlice(group: seq<Plan>, p: nat, frontiers: nat, q: nat, k: nat): FilePlan
    requires Sliceable(group, frontiers) && p < |group| && q < frontiers && k < |group[0].files|
    requires Live(group, frontiers, q, k)
  {
    assert ShapeMatches(group, p, k);
    SliceFile(group[p].files[k], Edge(group[0].slotCount, frontiers, q), Edge(group[0].slotCount, frontiers, q + 1),
              FrontierSpan(group, k, frontiers, q))
  }

  lemma SliceFilesStep(group: seq<Plan>, p: nat, frontiers: nat, q: nat, n: nat)
    requires Sliceable(group, frontiers) && p < |group| && q < frontiers && 0 < n <= |group[0].files|
    ensures SliceFiles(group, p, frontiers, q, n)
            == SliceFiles(group, p, frontiers, q, n - 1)
               + if Live(group, frontiers, q, n - 1) then [FileSlice(group, p, frontiers, q, n - 1)] else []
  {
  }

  lemma NoSlices(group: seq<Plan>, p: nat, frontiers: nat, q: nat)
    requires Sliceable(group, frontiers) && p < |group| && q < frontiers
    ensures SliceFiles(group, p, frontiers, q, 0) == []
  {
  }

  lemma {:induction false} SliceFilesMembers(group: seq<Plan>, p: nat, frontiers: nat, q: nat, n: nat, f: FilePlan)
    returns (k: nat)
    requires Sliceable(group, frontiers) && p < |group| && q < frontiers && n <= |group[0].files|
    requires f in SliceFiles(group, p, frontiers, q, n)
    ensures k < n && Live(group, frontiers, q, k) && f == FileSlice(group, p, frontiers, q, k)
  {
    hide Live, FileSlice, Sliceable, FrontierSpan;
    if n == 0 {
      NoSlices(group, p, frontiers, q);
      return;
    }
    hide SliceFiles;
    SliceFilesStep(group, p, frontiers, q, n);
    if f in SliceFiles(group, p, frontiers, q, n - 1) {
      k := SliceFilesMembers(group, p, frontiers, q, n - 1, f);
    } else {
      k := n - 1;
    }
  }

  lemma {:induction false} SliceFilesComplete(group: seq<Plan>, p: nat, frontiers: nat, q: nat, n: nat, k: nat)
    requires Sliceable(group, frontiers) && p < |group| && q < frontiers && k < n <= |group[0].files|
    requires Live(group, frontiers, q, k)
    ensures FileSlice(group, p, frontiers, q, k) in SliceFiles(group, p, frontiers, q, n)
  {
    hide SliceFiles, Live, FileSlice, Sliceable, FrontierSpan;
    SliceFilesStep(group, p, frontiers, q, n);
    if k < n - 1 {
      SliceFilesComplete(group, p, frontiers, q, n - 1, k);
    }
  }

  lemma AcceptedFile(group: seq<Plan>, p: nat, k: nat)
    requires FineGroup(group) && Uniform(group) && p < |group| && k < |group[0].files|
    ensures InRange(group[p].files[k], group[p].slotCount)
    ensures group[p].slotCount == group[0].slotCount
    ensures forall e :: e in Selected(group[p].files[k]) ==> e in GroupSelected(group, k, |group|)
  {
    GroupShape(group);
    assert FileVerdict(group[p], group[p].files[k], group[0].files[k]) == Fine;
    SelectedInRange(group[p], group[p].files[k], group[0].files[k]);
    forall e | e in Selected(group[p].files[k]) ensures e in GroupSelected(group, k, |group|) {
      GroupSelectedMembers(group, k, |group|, e);
    }
  }

  /** The planned envelope contains every selected frame of its frontier. */
  lemma SpanCovers(group: seq<Plan>, p: nat, frontiers: nat, q: nat, k: nat, e: Entry)
    requires FineGroup(group) && Uniform(group) && p < |group| && k < |group[0].files| && q < frontiers
    requires e in Selected(group[p].files[k]) && Within(group[0].slotCount, frontiers, q, e.slot)
    ensures var span := FrontierSpan(group, k, frontiers, q); span.start <= e.frame < span.stop
  {
    AcceptedFile(group, p, k);
    var entries := GroupSelected(group, k, |group|);
    var lo, hi := Edge(group[0].slotCount, frontiers, q), Edge(group[0].slotCount, frontiers, q + 1);
    assert Inside(e, lo, hi);
    MinFrameIsLeast(entries, lo, hi, group[0].files[k].frameCount);
    MaxStopIsGreatest(entries, lo, hi, 0);
  }

  lemma EdgeNonNegative(slots: int, frontiers: nat, q: nat)
    requires 0 < frontiers <= slots
    ensures 0 <= Edge(slots, frontiers, q) < Edge(slots, frontiers, q + 1)
  {
    EdgeEnds(slots, frontiers);
    if q > 0 {
      EdgesIncrease(slots, frontiers, 0, q);
    }
    EdgeStep(slots, frontiers, q);
  }

  lemma SliceInRange(f: FilePlan, lo: int, hi: int, span: Span)
    requires ShapeFits(f) && 0 <= lo <= hi && 0 <= span.start < span.stop <= f.frameCount
    ensures InRange(SliceFile(f, lo, hi, span), hi - lo)
  {
    hide Selected, SliceDense, SliceSparse;
    var slice := SliceFile(f, lo, hi, span);
    SelectedSlice(f, lo, hi, span, Entry(0, 0));
    forall e | e in Selected(slice) ensures 0 <= e.frame < slice.frameCount && 0 <= e.slot < hi - lo {
      SelectedSlice(f, lo, hi, span, e);
    }
  }

  /** A slice whose envelope covers the window writes what the file writes there, relative to the window. */
  lemma SliceWrites(f: FilePlan, slotCount: int, lo: int, hi: int, span: Span, w: Write)
    requires InRange(f, slotCount) && 0 <= lo <= hi && 0 <= span.start < span.stop <= f.frameCount
    requires forall e :: e in Selected(f) && lo <= e.slot < hi ==> span.start <= e.frame < span.stop
    ensures FileWrites(SliceFile(f, lo, hi, span), hi - lo, w) <==>
      0 <= w.slot < hi - lo && FileWrites(f, slotCount, Write(w.slot + lo, w.source))
  {
    hide FileWrites, Selected, SliceDense, SliceSparse;
    var slice := SliceFile(f, lo, hi, span);
    SliceInRange(f, lo, hi, span);
    SelectedSlice(f, lo, hi, span, Entry(w.source.frame - slice.firstFrame, w.slot));
    KernelIsSelection(slice, hi - lo, w);
    KernelIsSelection(f, slotCount, Write(w.slot + lo, w.source));
  }

  lemma SlicedFileWrites(group: seq<Plan>, p: nat, frontiers: nat, q: nat, k: nat, w: Write)
    requires FineGroup(group) && Sliceable(group, frontiers) && p < |group| && q < frontiers && k < |group[0].files|
    requires Live(group, frontiers, q, k)
    ensures var lo, hi := Edge(group[0].slotCount, frontiers, q), Edge(group[0].slotCount, frontiers, q + 1);
            FileWrites(FileSlice(group, p, frontiers, q, k), hi - lo, w) <==>
            && 0 <= w.slot < hi - lo
            && FileWrites(group[p].files[k], group[p].slotCount, Write(w.slot + lo, w.source))
  {
    var f := group[p].files[k];
    var span := FrontierSpan(group, k, frontiers, q);
    var lo, hi := Edge(group[0].slotCount, frontiers, q), Edge(group[0].slotCount, frontiers, q + 1);
    assert ShapeMatches(group, p, k);
    hide FrontierSpan, Edge, GroupVerdict, FileWrites, Selected, Sliceable, SliceFile;
    AcceptedFile(group, p, k);
    EdgeNonNegative(group[0].slotCount, frontiers, q);
    forall e | e in Selected(f) && lo <= e.slot < hi ensures span.start <= e.frame < span.stop {
      SpanCovers(group, p, frontiers, q, k, e);
    }
    SliceWrites(f, group[p].slotCount, lo, hi, span, w);
  }

  lemma SliceWritesComeFromPlan(group: seq<Plan>, p: nat, frontiers: nat, q: nat, w: Write)
    requires FineGroup(group) && Sliceable(group, frontiers) && p < |group| && q < frontiers
    requires PlanWrites(SlicePlan(group, p, frontiers, q), w)
    ensures var lo, hi := Edge(group[0].slotCount, frontiers, q), Edge(group[0].slotCount, frontiers, q + 1);
            0 <= w.slot < hi - lo && PlanWrites(group[p], Write(w.slot + lo, w.source))
  {
    hide *;
    SliceShape(group, p, frontiers, q);
    var f := WritingFile(SlicePlan(group, p, frontiers, q), w);
    var k := SliceFilesMembers(group, p, frontiers, q, |group[0].files|, f);
    SlicedFileWrites(group, p, frontiers, q, k, w);
    FilePlanWrites(group[p], k, Write(w.slot + Edge(group[0].slotCount, frontiers, q), w.source));
  }

  lemma SliceShape(group: seq<Plan>, p: nat, frontiers: nat, q: nat)
    requires FineGroup(group) && Sliceable(group, frontiers) && p < |group| && q < frontiers
    ensures |group[p].files| == |group[0].files|
    ensures SlicePlan(group, p, frontiers, q).files == SliceFiles(group, p, frontiers, q, |group[0].files|)
    ensures SlicePlan(group, p, frontiers, q).slotCount
         == Edge(group[0].slotCount, frontiers, q + 1) - Edge(group[0].slotCount, frontiers, q)
  {
    hide SliceFiles, Edge, GroupVerdict;
  }

  lemma WritingFile(p: Plan, w: Write) returns (f: FilePlan)
    requires PlanWrites(p, w)
    ensures f in p.files && FileWrites(f, p.slotCount, w)
  {
    var k := WritingIndex(p, w);
    f := p.files[k];
  }

  lemma WritingIndex(p: Plan, w: Write) returns (k: nat)
    requires PlanWrites(p, w)
    ensures k < |p.files| && FileWrites(p.files[k], p.slotCount, w)
  {
    k :| 0 <= k < |p.files| && FileWrites(p.files[k], p.slotCount, w);
  }

  lemma FilePlanWrites(p: Plan, k: nat, w: Write)
    requires k < |p.files| && FileWrites(p.files[k], p.slotCount, w)
    ensures PlanWrites(p, w)
  {
  }

  lemma PlanWritesReachSlice(group: seq<Plan>, p: nat, frontiers: nat, q: nat, w: Write)
    requires FineGroup(group) && Sliceable(group, frontiers) && p < |group| && q < frontiers
    requires Within(group[0].slotCount, frontiers, q, w.slot) && PlanWrites(group[p], w)
    ensures PlanWrites(SlicePlan(group, p, frontiers, q), Write(w.slot - Edge(group[0].slotCount, frontiers, q), w.source))
  {
    assert |group[p].files| == |group[0].files|;
    hide PlanWrites, FileWrites, SliceFiles, FileSlice, SlicePlan, Sliceable, FineGroup, Edge, Live, Within;
    var k := WritingIndex(group[p], w);
    FileWritesReachSlice(group, p, frontiers, q, k, w);
    SliceFilesComplete(group, p, frontiers, q, |group[0].files|, k);
    SlicePlanWrites(group, p, frontiers, q, FileSlice(group, p, frontiers, q, k),
                    Write(w.slot - Edge(group[0].slotCount, frontiers, q), w.source));
  }

  lemma FileWritesReachSlice(group: seq<Plan>, p: nat, frontiers: nat, q: nat, k: nat, w: Write)
    requires FineGroup(group) && Sliceable(group, frontiers) && p < |group| && q < frontiers && k < |group[0].files|
    requires Within(group[0].slotCount, frontiers, q, w.slot) && FileWrites(group[p].files[k], group[p].slotCount, w)
    ensures Live(group, frontiers, q, k)
    ensures FileWrites(FileSlice(group, p, frontiers, q, k),
                       Edge(group[0].slotCount, frontiers, q + 1) - Edge(group[0].slotCount, frontiers, q),
                       Write(w.slot - Edge(group[0].slotCount, frontiers, q), w.source))
  {
    hide FileWrites, FileSlice, Sliceable, FrontierSpan, FineGroup, Edge, Live;
    WriteIsLive(group, p, frontiers, q, k, w);
    SlicedFileWrites(group, p, frontiers, q, k, Write(w.slot - Edge(group[0].slotCount, frontiers, q), w.source));
  }

  lemma WriteIsLive(group: seq<Plan>, p: nat, frontiers: nat, q: nat, k: nat, w: Write)
    requires FineGroup(group) && Sliceable(group, frontiers) && p < |group| && q < frontiers && k < |group[0].files|
    requires Within(group[0].slotCount, frontiers, q, w.slot) && FileWrites(group[p].files[k], group[p].slotCount, w)
    ensures Live(group, frontiers, q, k)
  {
    hide FileWrites, FrontierSpan, GroupVerdict;
    AcceptedFile(group, p, k);
    KernelIsSelection(group[p].files[k], group[p].slotCount, w);
    SpanCovers(group, p, frontiers, q, k, Entry(w.source.frame - group[p].files[k].firstFrame, w.slot));
  }

  lemma SlicePlanWrites(group: seq<Plan>, p: nat, frontiers: nat, q: nat, f: FilePlan, w: Write)
    requires Sliceable(group, frontiers) && p < |group| && q < frontiers
    requires f in SliceFiles(group, p, frontiers, q, |group[0].files|)
    requires FileWrites(f, Edge(group[0].slotCount, frontiers, q + 1) - Edge(group[0].slotCount, frontiers, q), w)
    ensures PlanWrites(SlicePlan(group, p, frontiers, q), w)
  {
    hide SliceFiles, FileWrites, Sliceable;
    var slice := SlicePlan(group, p, frontiers, q);
    var j :| 0 <= j < |slice.files| && slice.files[j] == f;
    FilePlanWrites(slice, j, w);
  }

  // ----- all tasks -----

  /** A task performs write w of plan p, seen from the whole plan's buffer. */
  ghost predicate TaskWrites(task: Task, p: nat, w: Write) {
    p < |task.plans| && PlanWrites(task.plans[p], Write(w.slot - task.firstSlot, w.source))
  }

  /** `task` is frontier q of group g. */
  predicate IsTask(groups: seq<seq<Plan>>, chunkBytes: seq<int>, frontiers: nat, q: nat, g: nat, task: Task) {
    && g < |groups| == |chunkBytes| && q < frontiers && Sliceable(groups[g], frontiers)
    && task == SliceTask(groups, chunkBytes, frontiers, q, g)
  }

  lemma UploadsSplittable(groups: seq<seq<Plan>>, chunkBytes: seq<int>, frontierCount: int)
    requires PlanUploads(groups, chunkBytes, frontierCount).Tasks?
    ensures Splittable(groups, frontierCount) && |groups| == |chunkBytes|
    ensures forall g :: 0 <= g < |groups| ==>
      FineGroup(groups[g]) && Uniform(groups[g]) && Sliceable(groups[g], EffectiveFrontiers(groups, frontierCount))
    ensures PlanUploads(groups, chunkBytes, frontierCount).tasks
            == AllTasks(groups, chunkBytes, EffectiveFrontiers(groups, frontierCount))
  {
    hide Sliceable, FineGroup, Uniform, AllTasks;
    SplittableGroups(groups, frontierCount);
  }

  lemma TaskAtIndex(groups: seq<seq<Plan>>, chunkBytes: seq<int>, frontiers: nat, t: nat) returns (q: nat, g: nat)
    requires |groups| == |chunkBytes| && groups != []
    requires forall g :: 0 <= g < |groups| ==> Sliceable(groups[g], frontiers)
    requires t < |AllTasks(groups, chunkBytes, frontiers)|
    ensures t == q * |groups| + g
    ensures IsTask(groups, chunkBytes, frontiers, q, g, AllTasks(groups, chunkBytes, frontiers)[t])
  {
    hide Sliceable, SliceTask;
    RowColumn(t, |groups|, frontiers);
    q, g := t / |groups|, t % |groups|;
  }

  lemma IndexOfTask(groups: seq<seq<Plan>>, chunkBytes: seq<int>, frontiers: nat, q: nat, g: nat)
    requires |groups| == |chunkBytes| && g < |groups| && q < frontiers
    requires forall g :: 0 <= g < |groups| ==> Sliceable(groups[g], frontiers)
    ensures q * |groups| + g < |AllTasks(groups, chunkBytes, frontiers)|
    ensures IsTask(groups, chunkBytes, frontiers, q, g, AllTasks(groups, chunkBytes, frontiers)[q * |groups| + g])
  {
    hide Sliceable, SliceTask;
    DivUnique(q * |groups| + g, |groups|, q, g);
    MulStep(|groups|, q, frontiers);
  }

  /** Task number q * groups + g is frontier q of group g, for every q and g and no other. */
  lemma TaskLayout(groups: seq<seq<Plan>>, chunkBytes: seq<int>, frontierCount: int, t: nat) returns (q: nat, g: nat)
    requires PlanUploads(groups, chunkBytes, frontierCount).Tasks?
    requires t < |PlanUploads(groups, chunkBytes, frontierCount).tasks|
    ensures t == q * |groups| + g && EffectiveFrontiers(groups, frontierCount) > 0
    ensures IsTask(groups, chunkBytes, EffectiveFrontiers(groups, frontierCount), q, g,
                   PlanUploads(groups, chunkBytes, frontierCount).tasks[t])
  {
    hide Sliceable, PlanUploads, AllTasks, IsTask;
    UploadsSplittable(groups, chunkBytes, frontierCount);
    q, g := TaskAtIndex(groups, chunkBytes, EffectiveFrontiers(groups, frontierCount), t);
  }

  lemma TaskOfFrontier(groups: seq<seq<Plan>>, chunkBytes: seq<int>, frontierCount: int, g: nat, q: nat)
    requires PlanUploads(groups, chunkBytes, frontierCount).Tasks?
    requires g < |groups| && q < EffectiveFrontiers(groups, frontierCount)
    ensures q * |groups| + g < |PlanUploads(groups, chunkBytes, frontierCount).tasks|
    ensures IsTask(groups, chunkBytes, EffectiveFrontiers(groups, frontierCount), q, g,
                   PlanUploads(groups, chunkBytes, frontierCount).tasks[q * |groups| + g])
  {
    hide Sliceable, PlanUploads, AllTasks, IsTask;
    UploadsSplittable(groups, chunkBytes, frontierCount);
    IndexOfTask(groups, chunkBytes, EffectiveFrontiers(groups, frontierCount), q, g);
  }

  lemma TaskWritesComeFromPlan(groups: seq<seq<Plan>>, chunkBytes: seq<int>, frontierCount: int,
                               t: nat, p: nat, w: Write)
    requires PlanUploads(groups, chunkBytes, frontierCount).Tasks?
    requires t < |PlanUploads(groups, chunkBytes, frontierCount).tasks|
    requires TaskWrites(PlanUploads(groups, chunkBytes, frontierCount).tasks[t], p, w)
    ensures var task := PlanUploads(groups, chunkBytes, frontierCount).tasks[t];
            && task.group < |groups| && p < |groups[task.group]|
            && task.firstSlot <= w.slot < task.stopSlot && PlanWrites(groups[task.group][p], w)
  {
    hide PlanUploads, Sliceable, PlanWrites, SlicePlan, FineGroup;
    var task := PlanUploads(groups, chunkBytes, frontierCount).tasks[t];
    var q, g := TaskLayout(groups, chunkBytes, frontierCount, t);
    UploadsSplittable(groups, chunkBytes, frontierCount);
    SliceWritesComeFromPlan(groups[g], p, EffectiveFrontiers(groups, frontierCount), q,
                            Write(w.slot - task.firstSlot, w.source));
  }

  /** Some task of the group performs a given write of a plan: that of the frontier its slot lies in. */
  lemma TaskWritingPlan(groups: seq<seq<Plan>>, chunkBytes: seq<int>, frontierCount: int, g: nat, p: nat, w: Write)
    returns (t: nat)
    requires PlanUploads(groups, chunkBytes, frontierCount).Tasks?
    requires g < |groups| && p < |groups[g]| && PlanWrites(groups[g][p], w)
    ensures var tasks := PlanUploads(groups, chunkBytes, frontierCount).tasks;
            t < |tasks| && tasks[t].group == g && TaskWrites(tasks[t], p, w)
  {
    hide PlanUploads, PlanWrites, SlicePlan, FineGroup;
    var frontiers := EffectiveFrontiers(groups, frontierCount);
    UploadsSplittable(groups, chunkBytes, frontierCount);
    assert Sliceable(groups[g], frontiers);
    PlanWritesInRange(groups[g], p, w);
    var q := SlotHasOneFrontier(groups[g][0].slotCount, frontiers, w.slot);
    PlanWritesReachSlice(groups[g], p, frontiers, q, w);
    TaskOfFrontier(groups, chunkBytes, frontierCount, g, q);
    t := q * |groups| + g;
  }

  /** The tasks of a group together write what its plans write: nothing lost, added or moved. */
  lemma TasksWriteThePlan(groups: seq<seq<Plan>>, chunkBytes: seq<int>, frontierCount: int, g: nat, p: nat, w: Write)
    requires PlanUploads(groups, chunkBytes, frontierCount).Tasks?
    requires g < |groups| && p < |groups[g]|
    ensures var tasks := PlanUploads(groups, chunkBytes, frontierCount).tasks;
            PlanWrites(groups[g][p], w) <==>
            exists t :: 0 <= t < |tasks| && tasks[t].group == g && TaskWrites(tasks[t], p, w)
  {
    hide PlanUploads, Sliceable, PlanWrites, SlicePlan, FineGroup, IsTask;
    var tasks := PlanUploads(groups, chunkBytes, frontierCount).tasks;
    if PlanWrites(groups[g][p], w) {
      var t := TaskWritingPlan(groups, chunkBytes, frontierCount, g, p, w);
    }
    forall t | 0 <= t < |tasks| && tasks[t].group == g && TaskWrites(tasks[t], p, w)
      ensures PlanWrites(groups[g][p], w)
    {
      TaskWritesComeFromPlan(groups, chunkBytes, frontierCount, t, p, w);
    }
  }

  lemma PlanWritesInRange(group: seq<Plan>, p: nat, w: Write)
    requires FineGroup(group) && Uniform(group) && p < |group| && PlanWrites(group[p], w)
    ensures 0 <= w.slot < group[0].slotCount
  {
    var k :| 0 <= k < |group[p].files| && FileWrites(group[p].files[k], group[p].slotCount, w);
    AcceptedFile(group, p, k);
    KernelIsSelection(group[p].files[k], group[p].slotCount, w);
  }

  // ----- running the writes -----

  /** No slot is written from two different frames. */
  ghost predicate SingleSource(writes: seq<Write>) {
    forall v, w :: v in writes && w in writes && v.slot == w.slot ==> v == w
  }

  /** Slot contents after performing writes in order. */
  function Run(writes: seq<Write>, slots: map<int, Source>): map<int, Source> {
    if writes == [] then slots
    else
      var last := writes[|writes| - 1];
      Run(writes[..|writes| - 1], slots)[last.slot := last.source]
  }

  lemma {:induction false} RunAt(writes: seq<Write>, slots: map<int, Source>, s: int)
    requires SingleSource(writes)
    ensures forall w :: w in writes && w.slot == s ==>
      s in Run(writes, slots) && Run(writes, slots)[s] == w.source
    ensures (forall w :: w in writes ==> w.slot != s) ==>
      (s in Run(writes, slots) <==> s in slots) && (s in slots ==> Run(writes, slots)[s] == slots[s])
  {
    if writes != [] {
      var rest := writes[..|writes| - 1];
      assert forall w :: w in rest ==> w in writes;
      RunAt(rest, slots, s);
    }
  }

  /** With one source a slot, only the set of writes matters. */
  lemma OrderIsIrrelevant(a: seq<Write>, b: seq<Write>, slots: map<int, Source>)
    requires SingleSource(a) && forall w :: w in a <==> w in b
    ensures Run(a, slots) == Run(b, slots)
  {
    forall s
      ensures s in Run(a, slots) <==> s in Run(b, slots)
      ensures s in Run(a, slots) ==> Run(a, slots)[s] == Run(b, slots)[s]
    {
      RunAt(a, slots, s);
      RunAt(b, slots, s);
    }
  }

  lemma {:induction false} PlanSelectedMembers(files: seq<FilePlan>, n: nat, k: nat, i: nat) returns (at: nat)
    requires k < n <= |files| && i < |Selected(files[k])|
    ensures at < |PlanSelected(files, n)| && PlanSelected(files, n)[at] == Selected(files[k])[i]
    ensures |PlanSelected(files, k)| <= at == |PlanSelected(files, k)| + i
  {
    if k == n - 1 {
      at := |PlanSelected(files, k)| + i;
    } else {
      at := PlanSelectedMembers(files, n - 1, k, i);
    }
  }

  lemma {:induction false} PlanSelectedGrows(files: seq<FilePlan>, k: nat, n: nat)
    requires k < n <= |files|
    ensures |PlanSelected(files, k)| + |Selected(files[k])| <= |PlanSelected(files, n)|
  {
    if k < n - 1 {
      PlanSelectedGrows(files, k, n - 1);
    }
  }

  /** Where a write of an accepted plan stands among the plan's selected entries. */
  lemma WriteEntry(group: seq<Plan>, p: nat, w: Write) returns (k: nat, i: nat, at: nat)
    requires FineGroup(group) && Uniform(group) && p < |group| && PlanWrites(group[p], w)
    ensures k < |group[p].files| && i < |Selected(group[p].files[k])|
    ensures w == Write(Selected(group[p].files[k])[i].slot,
                       Source(group[p].files[k].path, group[p].files[k].firstFrame + Selected(group[p].files[k])[i].frame))
    ensures at == |PlanSelected(group[p].files, k)| + i
    ensures at < |PlanSelected(group[p].files, |group[p].files|)|
    ensures PlanSelected(group[p].files, |group[p].files|)[at].slot == w.slot
  {
    var files := group[p].files;
    k :| 0 <= k < |files| && FileWrites(files[k], group[p].slotCount, w);
    AcceptedFile(group, p, k);
    KernelIsSelection(files[k], group[p].slotCount, w);
    i :| 0 <= i < |Selected(files[k])| && Selected(files[k])[i] == Entry(w.source.frame - files[k].firstFrame, w.slot);
    at := PlanSelectedMembers(files, |files|, k, i);
  }

  /** An accepted plan never writes a slot from two files or frames. */
  lemma PlanWritesOnce(group: seq<Plan>, p: nat, v: Write, w: Write)
    requires FineGroup(group) && Uniform(group) && p < |group|
    requires PlanWrites(group[p], v) && PlanWrites(group[p], w) && v.slot == w.slot
    ensures v == w
  {
    var files := group[p].files;
    var k, i, x := WriteEntry(group, p, v);
    var l, j, y := WriteEntry(group, p, w);
    assert DistinctSlots(PlanSelected(files, |files|)) by {
      GroupShape(group);
    }
    assert x == y;
    if k < l {
      PlanSelectedGrows(files, k, l);
    } else if l < k {
      PlanSelectedGrows(files, l, k);
    }
  }

  /**
   * Running the sliced tasks in any order, even interleaved write by write,
   * leaves every payload slot exactly as running the whole plan would.
   */
  lemma SlicingPreservesMeaning(groups: seq<seq<Plan>>, chunkBytes: seq<int>, frontierCount: int, g: nat, p: nat,
                                whole: seq<Write>, pieces: seq<Write>, slots: map<int, Source>)
    requires PlanUploads(groups, chunkBytes, frontierCount).Tasks?
    requires g < |groups| && p < |groups[g]|
    requires forall w :: w in whole <==> PlanWrites(groups[g][p], w)
    requires var tasks := PlanUploads(groups, chunkBytes, frontierCount).tasks;
             forall w :: w in pieces <==>
               exists t :: 0 <= t < |tasks| && tasks[t].group == g && TaskWrites(tasks[t], p, w)
    ensures Run(pieces, slots) == Run(whole, slots)
  {
    hide PlanUploads, PlanWrites, TaskWrites, FineGroup, Sliceable, Uniform, Run;
    UploadsSplittable(groups, chunkBytes, frontierCount);
    forall w ensures w in whole <==> w in pieces {
      TasksWriteThePlan(groups, chunkBytes, frontierCount, g, p, w);
    }
    forall v, w | v in whole && w in whole && v.slot == w.slot ensures v == w {
      PlanWritesOnce(groups[g], p, v, w);
    }
    OrderIsIrrelevant(whole, pieces, slots);
  }

  /** Task windows of a group are nonempty, abut and cover [0, slot_count): one task for every frontier. */
  lemma TaskWindowsTile(groups: seq<seq<Plan>>, chunkBytes: seq<int>, frontierCount: int, g: nat)
    requires PlanUploads(groups, chunkBytes, frontierCount).Tasks? && g < |groups|
    ensures groups[g] != []
    ensures var tasks := PlanUploads(groups, chunkBytes, frontierCount).tasks;
            var frontiers := EffectiveFrontiers(groups, frontierCount);
            && frontiers > 1 && |tasks| == frontiers * |groups|
            && forall q :: 0 <= q < frontiers ==> TaskWindow(tasks, |groups|, g, q, frontiers, groups[g][0].slotCount)
  {
    var tasks := PlanUploads(groups, chunkBytes, frontierCount).tasks;
    var frontiers := EffectiveFrontiers(groups, frontierCount);
    hide PlanUploads, FineGroup, Sliceable, TaskWindow, SliceTask;
    UploadsSplittable(groups, chunkBytes, frontierCount);
    forall q | 0 <= q < frontiers ensures TaskWindow(tasks, |groups|, g, q, frontiers, groups[g][0].slotCount) {
      FrontierWindow(groups, chunkBytes, frontierCount, g, q);
    }
  }

  /** Task q of group g: where it sits and how its window joins the one before. */
  predicate TaskWindow(tasks: seq<Task>, groups: nat, g: nat, q: nat, frontiers: nat, slots: int) {
    var t := q * groups + g;
    && t < |tasks| && tasks[t].group == g && tasks[t].frontier == q
    && tasks[t].firstSlot < tasks[t].stopSlot
    && (q == 0 ==> tasks[t].firstSlot == 0)
    && (q == frontiers - 1 ==> tasks[t].stopSlot == slots)
    && (q > 0 ==> t >= groups && tasks[t - groups].group == g && tasks[t - groups].stopSlot == tasks[t].firstSlot)
  }

  lemma FrontierWindow(groups: seq<seq<Plan>>, chunkBytes: seq<int>, frontierCount: int, g: nat, q: nat)
    requires PlanUploads(groups, chunkBytes, frontierCount).Tasks? && g < |groups| && groups[g] != []
    requires q < EffectiveFrontiers(groups, frontierCount)
    ensures TaskWindow(PlanUploads(groups, chunkBytes, frontierCount).tasks, |groups|, g, q,
                       EffectiveFrontiers(groups, frontierCount), groups[g][0].slotCount)
  {
    hide PlanUploads, SlicePlan, Edge;
    var frontiers := EffectiveFrontiers(groups, frontierCount);
    TaskOfFrontier(groups, chunkBytes, frontierCount, g, q);
    EdgeNonNegative(groups[g][0].slotCount, frontiers, q);
    EdgeEnds(groups[g][0].slotCount, frontiers);
    if q > 0 {
      TaskBefore(groups, chunkBytes, frontierCount, g, q);
    }
  }

  lemma TaskBefore(groups: seq<seq<Plan>>, chunkBytes: seq<int>, frontierCount: int, g: nat, q: nat)
    requires PlanUploads(groups, chunkBytes, frontierCount).Tasks? && g < |groups| && groups[g] != []
    requires 0 < q < EffectiveFrontiers(groups, frontierCount)
    ensures var tasks := PlanUploads(groups, chunkBytes, frontierCount).tasks;
            var t := q * |groups| + g;
            && |groups| <= t && t - |groups| < |tasks| && tasks[t - |groups|].group == g
            && tasks[t - |groups|].stopSlot == Edge(groups[g][0].slotCount, EffectiveFrontiers(groups, frontierCount), q)
  {
    hide PlanUploads, SlicePlan, Edge, Sliceable;
    TaskOfFrontier(groups, chunkBytes, frontierCount, g, q - 1);
    assert q * |groups| == (q - 1) * |groups| + |groups|;
  }

  // ----- one piece of every plan for each frontier -----

  /** The tasks that hold a piece of every plan of group g. */
  function TasksOf(tasks: seq<Task>, g: nat): set<nat> {
    set t: nat | t < |tasks| && tasks[t].group == g
  }

  /** Index of the task of frontier q, for the group numbered `first` of `step` groups. */
  function TaskNumber(q: nat, step: nat, first: nat): nat {
    q * step + first
  }

  function TaskNumbers(n: nat, step: nat, first: nat): set<nat> {
    if n == 0 then {} else TaskNumbers(n - 1, step, first) + {TaskNumber(n - 1, step, first)}
  }

  lemma {:induction false} TaskNumbersAre(n: nat, step: nat, first: nat, t: nat)
    ensures t in TaskNumbers(n, step, first) <==> exists q: nat :: q < n && t == TaskNumber(q, step, first)
  {
    hide TaskNumber;
    if n > 0 {
      TaskNumbersAre(n - 1, step, first, t);
    }
  }

  lemma {:induction false} TaskNumbersCount(n: nat, step: nat, first: nat)
    requires step > 0
    ensures |TaskNumbers(n, step, first)| == n
  {
    hide TaskNumber;
    if n > 0 {
      TaskNumbersCount(n - 1, step, first);
      NumbersDiffer(n - 1, step, first);
    }
  }

  lemma NumbersDiffer(n: nat, step: nat, first: nat)
    requires step > 0
    ensures TaskNumber(n, step, first) !in TaskNumbers(n, step, first)
  {
    hide TaskNumbers;
    TaskNumbersAre(n, step, first, TaskNumber(n, step, first));
    forall q: nat | q < n ensures TaskNumber(q, step, first) != TaskNumber(n, step, first) {
      MulStep(step, q, n);
    }
  }

  /**
   * Every plan is cut into exactly as many pieces as its completion counts down from:
   * one task a frontier holds a piece of each plan of the group.
   */
  lemma PiecesOfPlan(groups: seq<seq<Plan>>, chunkBytes: seq<int>, frontierCount: int, g: nat)
    requires PlanUploads(groups, chunkBytes, frontierCount).Tasks? && g < |groups|
    ensures var tasks := PlanUploads(groups, chunkBytes, frontierCount).tasks;
            && |TasksOf(tasks, g)| == EffectiveFrontiers(groups, frontierCount) > 1
            && forall t :: t in TasksOf(tasks, g) ==> |tasks[t].plans| == |groups[g]|
  {
    var tasks := PlanUploads(groups, chunkBytes, frontierCount).tasks;
    var frontiers := EffectiveFrontiers(groups, frontierCount);
    UploadsSplittable(groups, chunkBytes, frontierCount);
    forall t: nat | t < |tasks|
      ensures tasks[t].group == g <==> t in TaskNumbers(frontiers, |groups|, g)
      ensures tasks[t].group == g ==> |tasks[t].plans| == |groups[g]|
    {
      PieceAt(groups, chunkBytes, frontierCount, g, t);
    }
    hide PlanUploads, FineGroup, Sliceable, TaskNumbers, AllTasks;
    forall t | t in TaskNumbers(frontiers, |groups|, g) ensures t < |tasks| {
      TaskNumbersAre(frontiers, |groups|, g, t);
      var q: nat :| q < frontiers && t == TaskNumber(q, |groups|, g);
      TaskOfFrontier(groups, chunkBytes, frontierCount, g, q);
    }
    TaskNumbersCount(frontiers, |groups|, g);
    assert TasksOf(tasks, g) == TaskNumbers(frontiers, |groups|, g);
  }

  /** What a task says of itself. */
  lemma TaskShape(groups: seq<seq<Plan>>, chunkBytes: seq<int>, frontiers: nat, q: nat, g: nat, task: Task)
    requires IsTask(groups, chunkBytes, frontiers, q, g, task)
    ensures groups[g] != [] && frontiers > 0
    ensures task.group == g && |task.plans| == |groups[g]|
    ensures task.firstSlot == Edge(groups[g][0].slotCount, frontiers, q)
    ensures task.stopSlot == Edge(groups[g][0].slotCount, frontiers, q + 1)
    ensures forall s :: task.firstSlot <= s < task.stopSlot <==> Within(groups[g][0].slotCount, frontiers, q, s)
  {
    hide SlicePlan, Edge;
  }

  lemma PieceAt(groups: seq<seq<Plan>>, chunkBytes: seq<int>, frontierCount: int, g: nat, t: nat)
    requires PlanUploads(groups, chunkBytes, frontierCount).Tasks? && g < |groups|
    requires t < |PlanUploads(groups, chunkBytes, frontierCount).tasks| && EffectiveFrontiers(groups, frontierCount) > 0
    ensures var task := PlanUploads(groups, chunkBytes, frontierCount).tasks[t];
            && (task.group == g <==> t in TaskNumbers(EffectiveFrontiers(groups, frontierCount), |groups|, g))
            && (task.group == g ==> |task.plans| == |groups[g]|)
  {
    var frontiers := EffectiveFrontiers(groups, frontierCount);
    var tasks := PlanUploads(groups, chunkBytes, frontierCount).tasks;
    var q, h := TaskLayout(groups, chunkBytes, frontierCount, t);
    TaskShape(groups, chunkBytes, frontiers, q, h, tasks[t]);
    assert h < |groups| && q < frontiers;
    hide PlanUploads, IsTask;
    SameRemainder(t, |groups|, q, h, g, frontiers);
  }

  lemma SameRemainder(t: nat, step: nat, q: nat, h: nat, g: nat, n: nat)
    requires t == q * step + h && h < step && g < step && q < n
    ensures h == g <==> t in TaskNumbers(n, step, g)
  {
    hide TaskNumbers;
    TaskNumbersAre(n, step, g, t);
    assert t == TaskNumber(q, step, h);
    if t in TaskNumbers(n, step, g) {
      var r: nat :| r < n && t == TaskNumber(r, step, g);
      DivUnique(t, step, q, h);
      DivUnique(t, step, r, g);
    }
  }

  /**
   * No slot of a plan is written, and so published, by two of its tasks or from two
   * frames: what the readiness tickets take for granted.
   */
  lemma SlotHasOneTask(groups: seq<seq<Plan>>, chunkBytes: seq<int>, frontierCount: int, p: nat,
                       t: nat, v: Write, u: nat, w: Write)
    requires PlanUploads(groups, chunkBytes, frontierCount).Tasks?
    requires var tasks := PlanUploads(groups, chunkBytes, frontierCount).tasks;
             && t < |tasks| && u < |tasks| && tasks[t].group == tasks[u].group
             && TaskWrites(tasks[t], p, v) && TaskWrites(tasks[u], p, w)
    requires v.slot == w.slot
    ensures t == u && v == w
  {
    var q, g := WriterOfSlot(groups, chunkBytes, frontierCount, p, t, v);
    var r, h := WriterOfSlot(groups, chunkBytes, frontierCount, p, u, w);
    hide PlanUploads, FineGroup, PlanWrites, TaskWrites, MinSlots, Within, Uniform;
    PlanWritesOnce(groups[g], p, v, w);
    SameFrontier(groups, chunkBytes, frontierCount, g, q, r, w.slot);
  }

  /** Which frontier and group a writing task is. */
  lemma WriterOfSlot(groups: seq<seq<Plan>>, chunkBytes: seq<int>, frontierCount: int, p: nat, t: nat, w: Write)
    returns (q: nat, g: nat)
    requires PlanUploads(groups, chunkBytes, frontierCount).Tasks?
    requires var tasks := PlanUploads(groups, chunkBytes, frontierCount).tasks;
             t < |tasks| && TaskWrites(tasks[t], p, w)
    ensures EffectiveFrontiers(groups, frontierCount) > 0 && t == q * |groups| + g && g < |groups|
    ensures g == PlanUploads(groups, chunkBytes, frontierCount).tasks[t].group
    ensures FineGroup(groups[g]) && Uniform(groups[g]) && p < |groups[g]| && PlanWrites(groups[g][p], w)
    ensures Within(groups[g][0].slotCount, EffectiveFrontiers(groups, frontierCount), q, w.slot)
  {
    var tasks, frontiers := PlanUploads(groups, chunkBytes, frontierCount).tasks, EffectiveFrontiers(groups, frontierCount);
    hide *;
    TaskWritesComeFromPlan(groups, chunkBytes, frontierCount, t, p, w);
    UploadsSplittable(groups, chunkBytes, frontierCount);
    q, g := TaskLayout(groups, chunkBytes, frontierCount, t);
    TaskShape(groups, chunkBytes, frontiers, q, g, tasks[t]);
  }

  lemma SameFrontier(groups: seq<seq<Plan>>, chunkBytes: seq<int>, frontierCount: int, g: nat, q: nat, r: nat, slot: int)
    requires PlanUploads(groups, chunkBytes, frontierCount).Tasks? && g < |groups| && groups[g] != []
    requires var slots, frontiers := groups[g][0].slotCount, EffectiveFrontiers(groups, frontierCount);
             frontiers > 0 && Within(slots, frontiers, q, slot) && Within(slots, frontiers, r, slot)
    ensures q == r
  {
    UploadsSplittable(groups, chunkBytes, frontierCount);
    hide PlanUploads, FineGroup, Uniform, MinSlots, Edge;
    var slots, frontiers := groups[g][0].slotCount, EffectiveFrontiers(groups, frontierCount);
    if q < r {
      WithinLater(slots, frontiers, q, r);
    } else if r < q {
      WithinLater(slots, frontiers, r, q);
    }
  }
}
