/**
 * Ordered dense mappings split for free: the envelopes of their frontiers do not
 * overlap, so the split reads no more frames than the whole would
 * (src/cuphoton/xbeam/ingest_scheduler.py).
 */
module OrderedFrontiers {
  import opened Envelopes
  import opened Options
  import opened Frontier

  predicate FramesIncrease(entries: seq<Entry>) {
    forall i, j :: 0 <= i < j < |entries| ==> entries[i].frame < entries[j].frame
  }

  /** A dense mapping selects frames in increasing order, each once. */
  lemma {:induction false} DenseFramesIncrease(f: FilePlan, n: nat)
    requires ShapeFits(f) && f.sources.None? && n <= |f.slots.value|
    ensures FramesIncrease(SelectedUpTo(f, n))
    ensures forall i :: 0 <= i < |SelectedUpTo(f, n)| ==> 0 <= SelectedUpTo(f, n)[i].frame < n
  {
    if n > 0 {
      DenseFramesIncrease(f, n - 1);
    }
  }

  /** In a dense ordered mapping an earlier slot comes from an earlier frame. */
  lemma EarlierSlotEarlierFrame(entries: seq<Entry>, d: Entry, e: Entry)
    requires OrderedBySlot(entries) && FramesIncrease(entries) && d in entries && e in entries && d.slot < e.slot
    ensures d.frame < e.frame
  {
    var i :| 0 <= i < |entries| && entries[i] == d;
    var j :| 0 <= j < |entries| && entries[j] == e;
    assert i < j;
  }

  /** The first frame of a window comes after every frame of earlier slots. */
  lemma ReachBelowFirst(entries: seq<Entry>, lo: int, hi: int, count: nat)
    requires OrderedBySlot(entries) && FramesIncrease(entries)
    requires forall e :: e in entries ==> 0 <= e.frame < count
    ensures MaxStop(entries, 0, lo, 0) <= MinFrame(entries, lo, hi, count)
  {
    MinFrameIsLeast(entries, lo, hi, count);
    MaxStopIsGreatest(entries, 0, lo, 0);
    var first, reach := MinFrame(entries, lo, hi, count), MaxStop(entries, 0, lo, 0);
    hide MinFrame, MaxStop, OrderedBySlot, FramesIncrease;
    if reach > 0 {
      var d :| d in entries && Inside(d, 0, lo) && d.frame + 1 == reach;
      if first != count {
        var e :| e in entries && Inside(e, lo, hi) && e.frame == first;
        EarlierSlotEarlierFrame(entries, d, e);
      }
    } else if first != count {
      var e :| e in entries && Inside(e, lo, hi) && e.frame == first;
    }
  }

  lemma ReachGrows(entries: seq<Entry>, lo: int, hi: int)
    requires lo <= hi
    ensures MaxStop(entries, 0, lo, 0) <= MaxStop(entries, 0, hi, 0)
  {
    MaxStopIsGreatest(entries, 0, lo, 0);
    MaxStopIsGreatest(entries, 0, hi, 0);
    hide MaxStop;
    if MaxStop(entries, 0, lo, 0) > 0 {
      var d :| d in entries && Inside(d, 0, lo) && d.frame + 1 == MaxStop(entries, 0, lo, 0);
      assert Inside(d, 0, hi);
    }
  }

  /** One more frontier reads no more than it extends what the ones before reach. */
  lemma FrontierReads(entries: seq<Entry>, lo: int, hi: int, slots: int, count: nat)
    requires OrderedBySlot(entries) && FramesIncrease(entries) && 0 <= lo <= hi <= slots
    requires forall e :: e in entries ==> 0 <= e.frame < count
    ensures var start := MinFrame(entries, 0, slots, count);
            var reach, further := MaxStop(entries, 0, lo, 0), MaxStop(entries, 0, hi, 0);
            MaxInt(0, reach - start) + MaxInt(0, MaxStop(entries, lo, hi, 0) - MinFrame(entries, lo, hi, count))
            <= MaxInt(0, further - start)
  {
    hide MinFrame, MaxStop, OrderedBySlot, FramesIncrease;
    ReachBelowFirst(entries, lo, hi, count);
    ReachGrows(entries, lo, hi);
    if MinFrame(entries, lo, hi, count) < MaxStop(entries, lo, hi, 0) {
      WindowLast(entries, lo, hi, slots, count);
    }
  }

  lemma WindowLast(entries: seq<Entry>, lo: int, hi: int, slots: int, count: nat)
    requires 0 <= lo <= hi <= slots && MinFrame(entries, lo, hi, count) < MaxStop(entries, lo, hi, 0)
    requires forall e :: e in entries ==> 0 <= e.frame < count
    ensures MaxStop(entries, lo, hi, 0) <= MaxStop(entries, 0, hi, 0)
    ensures MinFrame(entries, 0, slots, count) <= MinFrame(entries, lo, hi, count)
  {
    MinFrameIsLeast(entries, lo, hi, count);
    MinFrameIsLeast(entries, 0, slots, count);
    MaxStopIsGreatest(entries, lo, hi, 0);
    MaxStopIsGreatest(entries, 0, hi, 0);
    var stop := MaxStop(entries, lo, hi, 0);
    if stop > 0 {
      var e :| e in entries && Inside(e, lo, hi) && e.frame + 1 == stop;
      assert Inside(e, 0, hi);
    }
  }

  /** The entries of file k of a group with one plan. */
  lemma OnlyPlan(group: seq<Plan>, k: nat)
    requires Uniform(group) && |group| == 1 && k < |group[0].files|
    ensures GroupSelected(group, k, 1) == Selected(group[0].files[k])
  {
    assert GroupSelected(group, k, 0) == [];
  }

  lemma {:induction false} SplitReaches(group: seq<Plan>, k: nat, frontiers: nat, n: nat)
    requires FineGroup(group) && Uniform(group) && |group| == 1 && k < |group[0].files|
    requires 0 < frontiers <= group[0].slotCount && n <= frontiers
    requires group[0].files[k].sources.None? && IsOrdered(Selected(group[0].files[k]))
    ensures var entries := Selected(group[0].files[k]);
            var count, slots := group[0].files[k].frameCount, group[0].slotCount;
            SplitTotal(group, k, frontiers, n)
            <= MaxInt(0, MaxStop(entries, 0, Edge(slots, frontiers, n), 0) - MinFrame(entries, 0, slots, count))
  {
    hide Selected, FineGroup, Edge, MinFrame, MaxStop, FrontierSpan;
    if n > 0 {
      SplitReaches(group, k, frontiers, n - 1);
      SplitStep(group, k, frontiers, n);
    }
  }

  lemma SplitStep(group: seq<Plan>, k: nat, frontiers: nat, n: nat)
    requires FineGroup(group) && Uniform(group) && |group| == 1 && k < |group[0].files|
    requires 0 < frontiers <= group[0].slotCount && 0 < n <= frontiers
    requires group[0].files[k].sources.None? && IsOrdered(Selected(group[0].files[k]))
    ensures var entries := Selected(group[0].files[k]);
            var count, slots := group[0].files[k].frameCount, group[0].slotCount;
            var start := MinFrame(entries, 0, slots, count);
            MaxInt(0, MaxStop(entries, 0, Edge(slots, frontiers, n - 1), 0) - start)
            + SpanLength(FrontierSpan(group, k, frontiers, n - 1))
            <= MaxInt(0, MaxStop(entries, 0, Edge(slots, frontiers, n), 0) - start)
  {
    hide Selected, FineGroup, Edge, MinFrame, MaxStop, FrontierSpan, GroupSelected;
    var slots := group[0].slotCount;
    DenseEntries(group, k);
    WindowSpan(group, k, frontiers, n - 1);
    EdgeRange(slots, frontiers, n);
    FrontierReads(Selected(group[0].files[k]), Edge(slots, frontiers, n - 1), Edge(slots, frontiers, n), slots,
                  group[0].files[k].frameCount);
  }

  lemma DenseEntries(group: seq<Plan>, k: nat)
    requires FineGroup(group) && Uniform(group) && |group| == 1 && k < |group[0].files|
    requires group[0].files[k].sources.None?
    ensures FramesIncrease(Selected(group[0].files[k]))
    ensures forall e :: e in Selected(group[0].files[k]) ==> 0 <= e.frame < group[0].files[k].frameCount
  {
    var f := group[0].files[k];
    GroupShape(group);
    assert FileVerdict(group[0], f, f) == Fine;
    SelectedInRange(group[0], f, f);
    DenseFramesIncrease(f, |f.slots.value|);
  }

  lemma WindowSpan(group: seq<Plan>, k: nat, frontiers: nat, q: nat)
    requires Uniform(group) && |group| == 1 && k < |group[0].files| && q < frontiers
    ensures var entries := Selected(group[0].files[k]);
            var lo, hi := Edge(group[0].slotCount, frontiers, q), Edge(group[0].slotCount, frontiers, q + 1);
            FrontierSpan(group, k, frontiers, q)
            == Span(MinFrame(entries, lo, hi, group[0].files[k].frameCount), MaxStop(entries, lo, hi, 0))
  {
    OnlyPlan(group, k);
    hide Selected, MinFrame, MaxStop, Edge;
  }

  lemma EdgeRange(slots: int, frontiers: nat, n: nat)
    requires 0 < n <= frontiers <= slots
    ensures 0 <= Edge(slots, frontiers, n - 1) <= Edge(slots, frontiers, n) <= slots
  {
    EdgeEnds(slots, frontiers);
    EdgeStep(slots, frontiers, n - 1);
    if n - 1 > 0 {
      EdgesIncrease(slots, frontiers, 0, n - 1);
    }
    if n < frontiers {
      EdgesIncrease(slots, frontiers, n, frontiers);
    }
  }

  lemma WholeSpan(group: seq<Plan>, k: nat)
    requires Uniform(group) && |group| == 1 && k < |group[0].files|
    ensures var entries := Selected(group[0].files[k]);
            FileSpan(group, k, 0, group[0].slotCount)
            == Span(MinFrame(entries, 0, group[0].slotCount, group[0].files[k].frameCount),
                    MaxStop(entries, 0, group[0].slotCount, 0))
  {
    OnlyPlan(group, k);
    hide Selected, MinFrame, MaxStop;
  }

  /** Splitting an ordered dense file of a single plan reads no extra frame. */
  lemma OrderedSplitIsFree(group: seq<Plan>, k: nat, frontiers: nat)
    requires FineGroup(group) && Uniform(group) && |group| == 1 && k < |group[0].files|
    requires 0 < frontiers <= group[0].slotCount
    requires group[0].files[k].sources.None? && IsOrdered(Selected(group[0].files[k]))
    ensures SplitTotal(group, k, frontiers, frontiers) <= SpanLength(FileSpan(group, k, 0, group[0].slotCount))
  {
    hide Selected, FineGroup, Edge, MinFrame, MaxStop, SplitTotal, FileSpan;
    SplitReaches(group, k, frontiers, frontiers);
    EdgeEnds(group[0].slotCount, frontiers);
    WholeSpan(group, k);
  }
}
