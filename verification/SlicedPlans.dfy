/**
 * What the tasks of the frontier planner (src/cuphoton/xbeam/ingest_scheduler.py) are
 * made of: their sliced plans are acceptable groups themselves, and each sliced file is
 * one contiguous read of its raw file, as long as it has to be and no longer.
 */
module SlicedPlans {
  import opened Envelopes
  import opened Frontier
  import opened FrontierPlanner
  import opened Options
  import opened PlanAcceptance
  import opened Slicing

  // ----- one sliced file -----

  lemma {:induction false} KeptFit(slots: seq<int>, sources: seq<int>, first: int, stop: int, span: Span, n: nat)
    requires n <= |slots| == |sources| && first <= stop
    ensures forall i :: 0 <= i < |SliceSparse(slots, sources, first, stop, span, n)| ==>
      var e := SliceSparse(slots, sources, first, stop, span, n)[i];
      0 <= e.slot < stop - first && 0 <= e.frame < span.stop - span.start
      && exists j :: 0 <= j < n && slots[j] == e.slot + first
  {
    if n > 0 {
      KeptFit(slots, sources, first, stop, span, n - 1);
    }
  }

  lemma {:induction false} KeptDiffer(slots: seq<int>, sources: seq<int>, first: int, stop: int, span: Span, n: nat)
    requires n <= |slots| == |sources| && 0 <= first <= stop && DistinctUpTo(slots, n)
    ensures DistinctSlots(SliceSparse(slots, sources, first, stop, span, n))
  {
    if n > 0 {
      KeptDiffer(slots, sources, first, stop, span, n - 1);
      KeptFit(slots, sources, first, stop, span, n - 1);
    }
  }

  /** A slice maps each of its frames, or each listed one, into its window or nowhere. */
  lemma SliceFits(f: FilePlan, lo: int, hi: int, span: Span)
    requires ShapeFits(f) && 0 <= lo <= hi && 0 <= span.start < span.stop <= f.frameCount
    ensures var slice := SliceFile(f, lo, hi, span);
            && slice.slots.Some? && LengthFits(slice) && SourcesFit(slice) && DestinationsFit(slice, hi - lo)
            && (slice.sources.Some? <==> f.sources.Some?)
            && slice.path == f.path && slice.stamp == f.stamp
            && slice.firstFrame == f.firstFrame + span.start && slice.frameCount == span.stop - span.start
  {
    if f.sources.Some? {
      KeptFit(f.slots.value, f.sources.value, lo, hi, span, |f.slots.value|);
    }
  }

  lemma SliceDistinct(f: FilePlan, lo: int, hi: int, span: Span)
    requires ShapeFits(f) && 0 <= lo <= hi && 0 <= span.start < span.stop <= f.frameCount
    requires DistinctUpTo(f.slots.value, |f.slots.value|)
    ensures var slice := SliceFile(f, lo, hi, span);
            ShapeFits(slice) && DistinctUpTo(slice.slots.value, |slice.slots.value|)
  {
    if f.sources.Some? {
      KeptDiffer(f.slots.value, f.sources.value, lo, hi, span, |f.slots.value|);
    }
  }

  // ----- all files of a sliced plan -----

  lemma {:induction false} PlanSelectedPrefix(files: seq<FilePlan>, more: seq<FilePlan>, n: nat)
    requires n <= |files|
    ensures PlanSelected(files + more, n) == PlanSelected(files, n)
  {
    if n > 0 {
      PlanSelectedPrefix(files, more, n - 1);
    }
  }

  /** All selected entries of a list of files. */
  function SelectedOf(files: seq<FilePlan>): seq<Entry> {
    PlanSelected(files, |files|)
  }

  lemma SelectedOfAppend(files: seq<FilePlan>, f: FilePlan)
    ensures SelectedOf(files + [f]) == SelectedOf(files) + Selected(f)
  {
    PlanSelectedPrefix(files, [f], |files|);
  }

  /** The window of frontier q of m. */
  function WindowStart(group: seq<Plan>, m: nat, q: nat): int
    requires group != [] && m > 0
  {
    group[0].slotCount * q / m
  }

  function WindowStop(group: seq<Plan>, m: nat, q: nat): int
    requires group != [] && m > 0
  {
    group[0].slotCount * (q + 1) / m
  }

  /** `slice` is file k of plan p as frontier q of m cuts it. */
  predicate IsSlice(group: seq<Plan>, p: nat, m: nat, q: nat, k: nat, slice: FilePlan) {
    && Sliceable(group, m) && p < |group| && q < m && k < |group[0].files| && Live(group, m, q, k)
    && slice == FileSlice(group, p, m, q, k)
  }

  /** `files` are the slices of its first n files. */
  predicate AreSlices(group: seq<Plan>, p: nat, m: nat, q: nat, n: nat, files: seq<FilePlan>) {
    && Sliceable(group, m) && p < |group| && q < m && n <= |group[0].files| == |group[p].files|
    && files == SliceFiles(group, p, m, q, n)
  }

  /** The slices of n files are those of one less and the last, if it is read at all. */
  lemma LastSlice(group: seq<Plan>, p: nat, m: nat, q: nat, n: nat, files: seq<FilePlan>) returns (rest: seq<FilePlan>, slice: FilePlan)
    requires AreSlices(group, p, m, q, n, files) && n > 0
    ensures AreSlices(group, p, m, q, n - 1, rest)
    ensures files == rest || (files == rest + [slice] && IsSlice(group, p, m, q, n - 1, slice))
  {
    SliceFilesStep(group, p, m, q, n);
    rest := SliceFiles(group, p, m, q, n - 1);
    hide SliceFiles, FileSlice, FrontierSpan;
    if Live(group, m, q, n - 1) {
      slice := FileSlice(group, p, m, q, n - 1);
    } else {
      slice := group[p].files[n - 1];
      assert rest + [] == rest;
    }
  }

  lemma FirstSlices(group: seq<Plan>, p: nat, m: nat, q: nat, files: seq<FilePlan>)
    requires AreSlices(group, p, m, q, 0, files)
    ensures files == []
  {
    NoSlices(group, p, m, q);
  }

  ghost predicate FilledWith(files: seq<FilePlan>, k: nat, s: int) {
    exists i :: Fills(files, k, i) && files[k].slots.value[i] == s
  }

  /** A slot of a sliced file is a slot of the file it was cut from. */
  lemma SliceTakes(group: seq<Plan>, p: nat, m: nat, q: nat, k: nat, slice: FilePlan, s: int)
    requires IsSlice(group, p, m, q, k, slice) && SlotTaken(Selected(slice), s)
    ensures FilledWith(group[p].files, k, s + WindowStart(group, m, q))
  {
    var f := group[p].files[k];
    var lo, hi := Edge(group[0].slotCount, m, q), Edge(group[0].slotCount, m, q + 1);
    EdgeNonNegative(group[0].slotCount, m, q);
    SliceParts(group, p, m, q, k);
    hide FrontierSpan, Sliceable, Selected, SliceFile, Edge;
    var at :| 0 <= at < |Selected(slice)| && Selected(slice)[at].slot == s;
    var e := Selected(slice)[at];
    assert e in Selected(slice);
    SelectedSlice(f, lo, hi, FrontierSpan(group, k, m, q), e);
    OriginalEntry(group[p].files, k, Entry(e.frame + FrontierSpan(group, k, m, q).start, e.slot + lo));
  }

  lemma OriginalEntry(files: seq<FilePlan>, k: nat, x: Entry)
    requires k < |files| && ShapeFits(files[k]) && x in Selected(files[k])
    ensures FilledWith(files, k, x.slot)
  {
    SelectedMembers(files[k], |files[k].slots.value|, x);
    var i :| 0 <= i < |files[k].slots.value| && Picks(files[k], i, x);
    assert Fills(files, k, i);
  }

  lemma SliceParts(group: seq<Plan>, p: nat, m: nat, q: nat, k: nat)
    requires Sliceable(group, m) && p < |group| && q < m && k < |group[0].files| && Live(group, m, q, k)
    ensures ShapeFits(group[p].files[k])
    ensures var span := FrontierSpan(group, k, m, q); 0 <= span.start < span.stop <= group[p].files[k].frameCount
  {
    assert ShapeMatches(group, p, k);
    assert SpanFits(FrontierSpan(group, k, m, q), group[0].files[k].frameCount);
  }

  /** A slot of the slices of n files is a slot of one of them. */
  lemma {:induction false} SlicesTake(group: seq<Plan>, p: nat, m: nat, q: nat, n: nat, files: seq<FilePlan>, s: int)
    requires AreSlices(group, p, m, q, n, files) && SlotTaken(SelectedOf(files), s)
    ensures TakenIn(group[p].files, n, s + WindowStart(group, m, q))
    decreases n
  {
    SlicesPlace(group, p, m, q, n, files);
    hide *;
    if n == 0 {
      FirstSlices(group, p, m, q, files);
      NothingTaken(s);
    } else {
      var rest, slice := LastSlice(group, p, m, q, n, files);
      if SlotTaken(SelectedOf(rest), s) {
        SlicesTake(group, p, m, q, n - 1, rest, s);
        StillTaken(group[p].files, n - 1, s + WindowStart(group, m, q));
      } else {
        LastTakes(rest, slice, s);
        SliceTakes(group, p, m, q, n - 1, slice, s);
        FilledIsTaken(group[p].files, n - 1, s + WindowStart(group, m, q));
      }
    }
  }

  lemma SlicesPlace(group: seq<Plan>, p: nat, m: nat, q: nat, n: nat, files: seq<FilePlan>)
    requires AreSlices(group, p, m, q, n, files)
    ensures group != [] && m > 0 && p < |group|
  {
  }

  lemma NothingTaken(s: int)
    ensures !SlotTaken(SelectedOf([]), s)
  {
  }

  lemma StillTaken(files: seq<FilePlan>, n: nat, s: int)
    requires TakenIn(files, n, s)
    ensures TakenIn(files, n + 1, s)
  {
    var k, i :| k < n && Fills(files, k, i) && files[k].slots.value[i] == s;
    assert k < n + 1;
  }

  lemma FilledIsTaken(files: seq<FilePlan>, n: nat, s: int)
    requires FilledWith(files, n, s)
    ensures TakenIn(files, n + 1, s)
  {
  }

  lemma LastTakes(rest: seq<FilePlan>, slice: FilePlan, s: int)
    requires SlotTaken(SelectedOf(rest + [slice]), s) && !SlotTaken(SelectedOf(rest), s)
    ensures SlotTaken(Selected(slice), s)
  {
    SelectedOfAppend(rest, slice);
    TakenAppend(SelectedOf(rest), Selected(slice), s);
  }

  /** When no slot of a plan is filled twice, neither is one of its slices. */
  lemma {:induction false} SlicesDiffer(group: seq<Plan>, p: nat, m: nat, q: nat, n: nat, files: seq<FilePlan>)
    requires AreSlices(group, p, m, q, n, files) && FillsOnce(group[p].files)
    ensures DistinctSlots(SelectedOf(files))
    decreases n
  {
    SlicesPlace(group, p, m, q, n, files);
    hide *;
    if n == 0 {
      FirstSlices(group, p, m, q, files);
      NothingDiffers();
    } else {
      var rest, slice := LastSlice(group, p, m, q, n, files);
      SlicesDiffer(group, p, m, q, n - 1, rest);
      if files != rest {
        SliceDiffers(group, p, m, q, n - 1, slice);
        SlicesApart(group, p, m, q, n - 1, rest, slice);
        AppendDiffers(rest, slice);
      }
    }
  }

  lemma NothingDiffers()
    ensures DistinctSlots(SelectedOf([]))
  {
  }

  lemma AppendDiffers(rest: seq<FilePlan>, slice: FilePlan)
    requires DistinctSlots(SelectedOf(rest)) && DistinctSlots(Selected(slice)) && TakesFresh(SelectedOf(rest), Selected(slice))
    ensures DistinctSlots(SelectedOf(rest + [slice]))
  {
    hide Selected, SelectedOf, DistinctSlots, SlotTaken;
    SelectedOfAppend(rest, slice);
    DistinctAppend(SelectedOf(rest), Selected(slice));
  }

  lemma SliceDiffers(group: seq<Plan>, p: nat, m: nat, q: nat, k: nat, slice: FilePlan)
    requires IsSlice(group, p, m, q, k, slice) && FillsOnce(group[p].files)
    ensures DistinctSlots(Selected(slice))
  {
    var f := group[p].files[k];
    var lo, hi := Edge(group[0].slotCount, m, q), Edge(group[0].slotCount, m, q + 1);
    SliceParts(group, p, m, q, k);
    EdgeNonNegative(group[0].slotCount, m, q);
    hide FrontierSpan, Sliceable, SliceFile, Edge, FillsOnce, SelectedUpTo;
    OneFileDiffers(group[p].files, k);
    SliceDistinct(f, lo, hi, FrontierSpan(group, k, m, q));
    DistinctByEntry(slice, |slice.slots.value|);
  }

  lemma OneFileDiffers(files: seq<FilePlan>, k: nat)
    requires FillsOnce(files) && k < |files| && files[k].slots.Some?
    ensures DistinctUpTo(files[k].slots.value, |files[k].slots.value|)
  {
    var slots := files[k].slots.value;
    forall i, j | 0 <= i < j < |slots| && slots[i] >= 0 ensures slots[i] != slots[j] {
      assert Fills(files, k, i);
      if slots[i] == slots[j] {
        assert Fills(files, k, j);
      }
    }
  }

  /** The slice of a file takes no slot of the slices of the files before. */
  lemma SlicesApart(group: seq<Plan>, p: nat, m: nat, q: nat, k: nat, rest: seq<FilePlan>, slice: FilePlan)
    requires AreSlices(group, p, m, q, k, rest) && IsSlice(group, p, m, q, k, slice) && FillsOnce(group[p].files)
    ensures TakesFresh(SelectedOf(rest), Selected(slice))
  {
    SlicesPlace(group, p, m, q, k, rest);
    hide *;
    forall s | SlotTaken(Selected(slice), s) ensures !SlotTaken(SelectedOf(rest), s) {
      SliceTakes(group, p, m, q, k, slice, s);
      TakenOnce(group[p].files, k, s + WindowStart(group, m, q));
      if SlotTaken(SelectedOf(rest), s) {
        SlicesTake(group, p, m, q, k, rest, s);
      }
    }
    SlotsFresh(SelectedOf(rest), Selected(slice));
  }

  lemma SlotsFresh(before: seq<Entry>, chosen: seq<Entry>)
    requires forall s :: SlotTaken(chosen, s) ==> !SlotTaken(before, s)
    ensures TakesFresh(before, chosen)
  {
    forall a | 0 <= a < |chosen| ensures !SlotTaken(before, chosen[a].slot) {
      assert SlotTaken(chosen, chosen[a].slot);
    }
  }

  /** A slot is not taken by file n and an earlier one. */
  lemma TakenOnce(files: seq<FilePlan>, n: nat, s: int)
    requires FillsOnce(files) && FilledWith(files, n, s)
    ensures !TakenIn(files, n, s)
  {
  }

  // ----- the sliced plans of a task -----

  /** Where the slice of file k stands in a sliced plan. */
  function LiveBelow(group: seq<Plan>, m: nat, q: nat, n: nat): nat
    requires Uniform(group) && q < m && n <= |group[0].files|
  {
    if n == 0 then 0 else LiveBelow(group, m, q, n - 1) + if Live(group, m, q, n - 1) then 1 else 0
  }

  /** Slice number i of a plan, and the file it was cut from. */
  lemma {:induction false} SliceAt(group: seq<Plan>, p: nat, m: nat, q: nat, n: nat, i: nat) returns (k: nat)
    requires Sliceable(group, m) && p < |group| && q < m && n <= |group[0].files|
    requires i < |SliceFiles(group, p, m, q, n)|
    ensures k < n && Live(group, m, q, k) && i == LiveBelow(group, m, q, k)
    ensures SliceFiles(group, p, m, q, n)[i] == FileSlice(group, p, m, q, k)
  {
    hide FrontierSpan, Sliceable, FileSlice, Live;
    if n == 0 {
      NoSlices(group, p, m, q);
      return;
    }
    SliceFilesStep(group, p, m, q, n);
    SliceCount(group, p, m, q, n - 1);
    if i < |SliceFiles(group, p, m, q, n - 1)| {
      k := SliceAt(group, p, m, q, n - 1, i);
    } else {
      k := n - 1;
    }
  }

  lemma {:induction false} SliceCount(group: seq<Plan>, p: nat, m: nat, q: nat, n: nat)
    requires Sliceable(group, m) && p < |group| && q < m && n <= |group[0].files|
    ensures |SliceFiles(group, p, m, q, n)| == LiveBelow(group, m, q, n)
  {
    hide FrontierSpan, Sliceable, FileSlice, Live;
    if n > 0 {
      SliceFilesStep(group, p, m, q, n);
      SliceCount(group, p, m, q, n - 1);
    } else {
      NoSlices(group, p, m, q);
    }
  }

  lemma {:induction false} LiveGrows(group: seq<Plan>, m: nat, q: nat, k: nat, n: nat)
    requires Uniform(group) && q < m && k < n <= |group[0].files| && Live(group, m, q, k)
    ensures LiveBelow(group, m, q, k) < LiveBelow(group, m, q, n)
  {
    hide Live, Uniform;
    if k < n - 1 {
      LiveGrows(group, m, q, k, n - 1);
    }
  }

  /** Slices with the same number were cut from corresponding files. */
  lemma SameNumber(group: seq<Plan>, m: nat, q: nat, k: nat, l: nat)
    requires Uniform(group) && q < m && k < |group[0].files| && l < |group[0].files|
    requires Live(group, m, q, k) && Live(group, m, q, l) && LiveBelow(group, m, q, k) == LiveBelow(group, m, q, l)
    ensures k == l
  {
    if k < l {
      LiveGrows(group, m, q, k, l);
    } else if l < k {
      LiveGrows(group, m, q, l, k);
    }
  }

  lemma SlicedFileAcceptable(group: seq<Plan>, p: nat, m: nat, q: nat, i: nat)
    requires Acceptable(group) && Sliceable(group, m) && p < |group| && q < m
    requires i < |SliceFiles(group, p, m, q, |group[0].files|)| == |SliceFiles(group, 0, m, q, |group[0].files|)|
    ensures FileAcceptable(SliceFiles(group, p, m, q, |group[0].files|)[i], SliceFiles(group, 0, m, q, |group[0].files|)[i],
                           Edge(group[0].slotCount, m, q + 1) - Edge(group[0].slotCount, m, q))
  {
    var n := |group[0].files|;
    hide Acceptable, FileAcceptable, FrontierSpan, Sliceable, SliceFiles, FileSlice, Live, LiveBelow, Uniform;
    var k := SliceAt(group, p, m, q, n, i);
    var l := SliceAt(group, 0, m, q, n, i);
    SliceableUniform(group, m);
    SameNumber(group, m, q, k, l);
    TwoSlices(group, p, m, q, k);
  }

  lemma SliceableUniform(group: seq<Plan>, m: nat)
    requires Sliceable(group, m)
    ensures Uniform(group)
  {
  }

  lemma TwoSlices(group: seq<Plan>, p: nat, m: nat, q: nat, k: nat)
    requires Acceptable(group) && Sliceable(group, m) && p < |group| && q < m && k < |group[0].files| && Live(group, m, q, k)
    ensures FileAcceptable(FileSlice(group, p, m, q, k), FileSlice(group, 0, m, q, k),
                           Edge(group[0].slotCount, m, q + 1) - Edge(group[0].slotCount, m, q))
  {
    var lo, hi := Edge(group[0].slotCount, m, q), Edge(group[0].slotCount, m, q + 1);
    AcceptableShape(group, k);
    SliceParts(group, p, m, q, k);
    SliceParts(group, 0, m, q, k);
    EdgeNonNegative(group[0].slotCount, m, q);
    assert SameFile(group[p].files[k], group[0].files[k]);
    hide Acceptable, FrontierSpan, Sliceable, SliceFile, Edge, LengthFits, SourcesFit, DestinationsFit;
    SliceFits(group[p].files[k], lo, hi, FrontierSpan(group, k, m, q));
    SliceFits(group[0].files[k], lo, hi, FrontierSpan(group, k, m, q));
  }

  /** The sliced plans of one frontier. */
  function Cut(group: seq<Plan>, m: nat, q: nat): (plans: seq<Plan>)
    requires Sliceable(group, m) && q < m
    ensures |plans| == |group| && forall p :: 0 <= p < |plans| ==> plans[p] == SlicePlan(group, p, m, q)
  {
    seq(|group|, p requires 0 <= p < |group| => SlicePlan(group, p, m, q))
  }

  lemma CutPlanAcceptable(group: seq<Plan>, p: nat, m: nat, q: nat)
    requires Acceptable(group) && Sliceable(group, m) && p < |group| && q < m
    ensures PlanAcceptable(SlicePlan(group, p, m, q), SlicePlan(group, 0, m, q))
    ensures Aligned(SlicePlan(group, p, m, q))
  {
    var n, count := |group[0].files|, Edge(group[0].slotCount, m, q + 1) - Edge(group[0].slotCount, m, q);
    assert PlanAcceptable(group[p], group[0]) && PlanAcceptable(group[0], group[0]);
    EdgesTile(group[0].slotCount, m);
    WindowFits(group[0].slotCount, m, q);
    SliceCount(group, p, m, q, n);
    SliceCount(group, 0, m, q, n);
    var files := SliceFiles(group, p, m, q, n);
    hide Acceptable, FileAcceptable, FrontierSpan, Sliceable, SliceFiles, Edge, LiveBelow;
    forall i | 0 <= i < |files| ensures FileAcceptable(files[i], SliceFiles(group, 0, m, q, n)[i], count) {
      SlicedFileAcceptable(group, p, m, q, i);
    }
    SlicesDiffer(group, p, m, q, n, files);
    SlicesFillOnce(files, SliceFiles(group, 0, m, q, n), count);
  }

  lemma SlicesFillOnce(files: seq<FilePlan>, references: seq<FilePlan>, count: int)
    requires |references| == |files| && forall i :: 0 <= i < |files| ==> FileAcceptable(files[i], references[i], count)
    requires DistinctSlots(SelectedOf(files))
    ensures FillsOnce(files)
  {
    forall i | 0 <= i < |files| ensures ShapeFits(files[i]) {
      assert FileAcceptable(files[i], references[i], count);
    }
    hide FileAcceptable;
    DistinctByPlan(files, |files|);
  }

  /** A window is no longer than all slots. */
  lemma WindowFits(slots: int, m: nat, q: nat)
    requires 0 < m <= slots && q < m
    ensures 0 < Edge(slots, m, q + 1) - Edge(slots, m, q) <= slots
  {
    EdgesTile(slots, m);
    if q > 0 {
      EdgesIncrease(slots, m, 0, q);
    }
    if q + 1 < m {
      EdgesIncrease(slots, m, q + 1, m);
    }
  }

  /** Every task of an accepted upload is an acceptable group of plans itself. */
  lemma TasksAcceptable(groups: seq<seq<Plan>>, chunkBytes: seq<int>, requested: int, t: nat)
    requires PlanUploads(groups, chunkBytes, requested).Tasks? && t < |PlanUploads(groups, chunkBytes, requested).tasks|
    ensures Acceptable(PlanUploads(groups, chunkBytes, requested).tasks[t].plans)
  {
    UploadsSplittable(groups, chunkBytes, requested);
    var m := EffectiveFrontiers(groups, requested);
    var q, g := TaskLayout(groups, chunkBytes, requested, t);
    AcceptedExactly(groups[g]);
    hide PlanUploads, Acceptable, Sliceable, EffectiveFrontiers, GroupVerdict, PlanAcceptable, Uniform;
    CutAcceptable(groups[g], m, q);
    assert PlanUploads(groups, chunkBytes, requested).tasks[t].plans == Cut(groups[g], m, q);
  }

  lemma CutAcceptable(group: seq<Plan>, m: nat, q: nat)
    requires Acceptable(group) && Sliceable(group, m) && q < m
    ensures Acceptable(Cut(group, m, q))
  {
    var plans := Cut(group, m, q);
    assert group != [];
    hide SlicePlan, PlanAcceptable, Sliceable, Aligned;
    forall p | 0 <= p < |plans| ensures PlanAcceptable(plans[p], plans[0]) && Aligned(plans[p]) {
      CutPlanAcceptable(group, p, m, q);
    }
  }

  /** A sliced file is the contiguous read of its raw file that the window needs, frame for frame. */
  lemma SliceIsRead(group: seq<Plan>, p: nat, m: nat, q: nat, f: FilePlan) returns (k: nat)
    requires Acceptable(group) && Sliceable(group, m) && p < |group| && q < m && f in SlicePlan(group, p, m, q).files
    ensures k < |group[0].files| == |group[p].files|
    ensures f.path == group[p].files[k].path && f.stamp == group[p].files[k].stamp
    ensures forall frame :: Reads(group, k, WindowStart(group, m, q), WindowStop(group, m, q), frame) <==>
      f.firstFrame <= group[p].files[k].firstFrame + frame < f.firstFrame + f.frameCount
  {
    var lo, hi := Edge(group[0].slotCount, m, q), Edge(group[0].slotCount, m, q + 1);
    k := SliceFilesMembers(group, p, m, q, |group[0].files|, f);
    AcceptableUniform(group);
    SliceParts(group, p, m, q, k);
    EdgeNonNegative(group[0].slotCount, m, q);
    SpanIsRead(group, k, lo, hi);
    assert FrontierSpan(group, k, m, q) == FileSpan(group, k, lo, hi);
    hide Acceptable, Sliceable, SliceFile, SlicePlan, FileSpan, Reads, FrontierSpan, LengthFits, SourcesFit, DestinationsFit;
    SliceFits(group[p].files[k], lo, hi, FrontierSpan(group, k, m, q));
  }
}
