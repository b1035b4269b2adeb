/**
 * Which upload plans the frontier planner of src/cuphoton/xbeam/ingest_scheduler.py
 * takes, said of the mappings themselves: what an acceptable group is, why any other
 * is refused, and when the accepted groups are cut into tasks.
 */
module PlanAcceptance {
  import opened Arithmetic
  import opened Envelopes
  import opened Frontier
  import opened FrontierPlanner
  import opened Options

  // ----- acceptable groups -----

  /** Entry i of file k has a destination. */
  predicate Fills(files: seq<FilePlan>, k: int, i: int) {
    0 <= k < |files| && files[k].slots.Some? && 0 <= i < |files[k].slots.value| && files[k].slots.value[i] >= 0
  }

  /** The raw frame of an entry, relative to the file's first. */
  function FrameAt(f: FilePlan, i: nat): int {
    if f.sources.Some? && i < |f.sources.value| then f.sources.value[i] else i
  }

  /** No slot is the destination of two entries, of one file or of two. */
  ghost predicate FillsOnce(files: seq<FilePlan>) {
    forall k, i, l, j :: Fills(files, k, i) && Fills(files, l, j) && files[k].slots.value[i] == files[l].slots.value[j] ==>
      k == l && i == j
  }

  predicate SameFile(f: FilePlan, reference: FilePlan) {
    f.slots.Some? && f.path == reference.path && f.firstFrame == reference.firstFrame && f.frameCount == reference.frameCount
  }

  /** A dense mapping has an entry a frame, a sparse one an entry a source. */
  predicate LengthFits(f: FilePlan) {
    f.slots.Some? && |f.slots.value| == if f.sources.Some? then |f.sources.value| else f.frameCount
  }

  predicate SourcesFit(f: FilePlan) {
    f.sources.Some? ==> forall i :: 0 <= i < |f.sources.value| ==> 0 <= f.sources.value[i] < f.frameCount
  }

  /** Destinations are slots, or -1 for a frame that is not mapped. */
  predicate DestinationsFit(f: FilePlan, slotCount: int) {
    f.slots.Some? ==> forall i :: 0 <= i < |f.slots.value| ==> -1 <= f.slots.value[i] < slotCount
  }

  predicate FileAcceptable(f: FilePlan, reference: FilePlan, slotCount: int) {
    SameFile(f, reference) && LengthFits(f) && SourcesFit(f) && DestinationsFit(f, slotCount)
  }

  /** A standard VDIF header of 32 bytes, frames of whole words. */
  predicate Aligned(p: Plan) {
    p.frameBytes > 32 && p.frameBytes % 8 == 0 && p.payloadBytes == p.frameBytes - 32
  }

  predicate SlotCountFits(p: Plan) {
    0 < p.slotCount < 0x8000_0000
  }

  predicate FilesAcceptable(p: Plan, first: Plan) {
    |p.files| == |first.files|
    && forall k :: 0 <= k < |p.files| ==> FileAcceptable(p.files[k], first.files[k], p.slotCount)
  }

  /** A plan of the group that `first` begins. */
  ghost predicate PlanAcceptable(p: Plan, first: Plan) {
    && !p.streaming && p.slotCount == first.slotCount && SlotCountFits(p)
    && p.frameBytes == first.frameBytes && p.payloadBytes == first.payloadBytes
    && FilesAcceptable(p, first) && FillsOnce(p.files)
  }

  ghost predicate Acceptable(group: seq<Plan>) {
    group != [] && Aligned(group[0]) && forall p :: 0 <= p < |group| ==> PlanAcceptable(group[p], group[0])
  }

  // ----- destinations of selected entries -----

  lemma {:induction false} TakenByEntry(f: FilePlan, n: nat, s: int)
    requires ShapeFits(f) && n <= |f.slots.value|
    ensures SlotTaken(SelectedUpTo(f, n), s) <==> s >= 0 && exists i :: 0 <= i < n && f.slots.value[i] == s
  {
    if n > 0 {
      TakenByEntry(f, n - 1, s);
      var rest, all := SelectedUpTo(f, n - 1), SelectedUpTo(f, n);
      if f.slots.value[n - 1] >= 0 {
        assert all == rest + [Entry(SourceOf(f, n - 1), f.slots.value[n - 1])];
        assert SlotTaken(all, s) <==> SlotTaken(rest, s) || s == f.slots.value[n - 1] by {
          assert all[|rest|].slot == f.slots.value[n - 1];
          assert forall i :: 0 <= i < |rest| ==> all[i] == rest[i];
        }
      }
    }
  }

  /** The first n entries of a file fill distinct slots. */
  predicate DistinctUpTo(slots: seq<int>, n: nat)
    requires n <= |slots|
  {
    forall i, j :: 0 <= i < j < n && slots[i] >= 0 ==> slots[i] != slots[j]
  }

  lemma {:induction false} DistinctByEntry(f: FilePlan, n: nat)
    requires ShapeFits(f) && n <= |f.slots.value|
    ensures DistinctSlots(SelectedUpTo(f, n)) <==> DistinctUpTo(f.slots.value, n)
  {
    if n > 0 {
      DistinctByEntry(f, n - 1);
      var rest, d := SelectedUpTo(f, n - 1), f.slots.value[n - 1];
      if d >= 0 {
        var last := [Entry(SourceOf(f, n - 1), d)];
        DistinctAppend(rest, last);
        TakenByEntry(f, n - 1, d);
        assert last[0].slot == d;
        hide SelectedUpTo;
      }
    }
  }

  ghost predicate TakenIn(files: seq<FilePlan>, n: nat, s: int) {
    exists k, i :: k < n && Fills(files, k, i) && files[k].slots.value[i] == s
  }

  lemma TakenAppend(a: seq<Entry>, b: seq<Entry>, s: int)
    ensures SlotTaken(a + b, s) <==> SlotTaken(a, s) || SlotTaken(b, s)
  {
    var all := a + b;
    assert forall i :: 0 <= i < |a| ==> all[i] == a[i];
    assert forall i :: 0 <= i < |b| ==> all[|a| + i] == b[i];
    if i :| 0 <= i < |b| && b[i].slot == s {
      assert all[|a| + i].slot == s;
    }
  }

  lemma TakenInStep(files: seq<FilePlan>, n: nat, s: int)
    requires n < |files| && ShapeFits(files[n])
    ensures TakenIn(files, n + 1, s) <==> TakenIn(files, n, s) || SlotTaken(Selected(files[n]), s)
  {
    var f := files[n];
    TakenByEntry(f, |f.slots.value|, s);
    hide SelectedUpTo, SlotTaken;
    if s >= 0 && exists i :: 0 <= i < |f.slots.value| && f.slots.value[i] == s {
      var i :| 0 <= i < |f.slots.value| && f.slots.value[i] == s;
      assert Fills(files, n, i);
    }
    if TakenIn(files, n, s) {
      var k, i :| k < n && Fills(files, k, i) && files[k].slots.value[i] == s;
      assert k < n + 1;
    }
    if TakenIn(files, n + 1, s) {
      var k, i :| k < n + 1 && Fills(files, k, i) && files[k].slots.value[i] == s;
      if k < n {
        assert TakenIn(files, n, s);
      }
    }
  }

  lemma {:induction false} TakenByPlan(files: seq<FilePlan>, n: nat, s: int)
    requires n <= |files| && forall k :: 0 <= k < n ==> ShapeFits(files[k])
    ensures SlotTaken(PlanSelected(files, n), s) <==> TakenIn(files, n, s)
  {
    if n > 0 {
      TakenByPlan(files, n - 1, s);
      TakenAppend(PlanSelected(files, n - 1), Selected(files[n - 1]), s);
      TakenInStep(files, n - 1, s);
      assert PlanSelected(files, n) == PlanSelected(files, n - 1) + Selected(files[n - 1]);
      hide *;
    }
  }

  /** FillsOnce for the first n files. */
  ghost predicate OnceUpTo(files: seq<FilePlan>, n: nat) {
    forall k, i, l, j ::
      k < n && l < n && Fills(files, k, i) && Fills(files, l, j) && files[k].slots.value[i] == files[l].slots.value[j] ==>
        k == l && i == j
  }

  lemma OnceStep(files: seq<FilePlan>, n: nat)
    requires n < |files| && files[n].slots.Some?
    ensures OnceUpTo(files, n + 1) <==>
      && OnceUpTo(files, n) && DistinctUpTo(files[n].slots.value, |files[n].slots.value|)
      && forall i :: Fills(files, n, i) ==> !TakenIn(files, n, files[n].slots.value[i])
  {
    var slots := files[n].slots.value;
    if OnceUpTo(files, n + 1) {
      forall i, j | 0 <= i < j < |slots| && slots[i] >= 0 ensures slots[i] != slots[j] {
        assert Fills(files, n, i);
        if slots[i] == slots[j] {
          assert Fills(files, n, j);
        }
      }
      forall i | Fills(files, n, i) ensures !TakenIn(files, n, slots[i]) {
      }
    }
    if OnceUpTo(files, n) && DistinctUpTo(slots, |slots|)
       && forall i :: Fills(files, n, i) ==> !TakenIn(files, n, slots[i]) {
      forall k, i, l, j | k < n + 1 && l < n + 1 && Fills(files, k, i) && Fills(files, l, j)
                          && files[k].slots.value[i] == files[l].slots.value[j]
        ensures k == l && i == j
      {
      }
    }
  }

  /** No entry of `chosen` fills a slot of `before`. */
  predicate TakesFresh(before: seq<Entry>, chosen: seq<Entry>) {
    forall i :: 0 <= i < |chosen| ==> !SlotTaken(before, chosen[i].slot)
  }

  lemma {:induction false} DistinctByPlan(files: seq<FilePlan>, n: nat)
    requires n <= |files| && forall k :: 0 <= k < n ==> ShapeFits(files[k])
    ensures DistinctSlots(PlanSelected(files, n)) <==> OnceUpTo(files, n)
  {
    hide SlotTaken, SelectedUpTo, Fills, TakenIn, OnceUpTo, DistinctUpTo, TakesFresh;
    if n == 0 {
      NoFiles(files);
    } else {
      hide DistinctSlots;
      DistinctByPlan(files, n - 1);
      PlanSelectedStep(files, n);
      FreshSlots(files, n - 1);
      DistinctByEntry(files[n - 1], |files[n - 1].slots.value|);
      OnceStep(files, n - 1);
    }
  }

  lemma NoFiles(files: seq<FilePlan>)
    ensures DistinctSlots(PlanSelected(files, 0)) && OnceUpTo(files, 0)
  {
  }

  lemma PlanSelectedStep(files: seq<FilePlan>, n: nat)
    requires 0 < n <= |files| && ShapeFits(files[n - 1])
    ensures Selected(files[n - 1]) == SelectedUpTo(files[n - 1], |files[n - 1].slots.value|)
    ensures DistinctSlots(PlanSelected(files, n)) <==>
      && DistinctSlots(PlanSelected(files, n - 1)) && DistinctSlots(Selected(files[n - 1]))
      && TakesFresh(PlanSelected(files, n - 1), Selected(files[n - 1]))
  {
    hide DistinctSlots, SlotTaken, SelectedUpTo;
    DistinctAppend(PlanSelected(files, n - 1), Selected(files[n - 1]));
  }

  /** The entries of file n take fresh slots, said of selected entries and of the mapping. */
  lemma FreshSlots(files: seq<FilePlan>, n: nat)
    requires n < |files| && forall k :: 0 <= k <= n ==> ShapeFits(files[k])
    ensures TakesFresh(PlanSelected(files, n), Selected(files[n]))
            <==> forall i :: Fills(files, n, i) ==> !TakenIn(files, n, files[n].slots.value[i])
  {
    var f, chosen := files[n], Selected(files[n]);
    forall s ensures SlotTaken(PlanSelected(files, n), s) <==> TakenIn(files, n, s) {
      TakenByPlan(files, n, s);
    }
    forall s ensures SlotTaken(chosen, s) <==> exists i :: Fills(files, n, i) && f.slots.value[i] == s {
      TakenByEntry(f, |f.slots.value|, s);
      if s >= 0 && exists i :: 0 <= i < |f.slots.value| && f.slots.value[i] == s {
        var i :| 0 <= i < |f.slots.value| && f.slots.value[i] == s;
        assert Fills(files, n, i);
      }
    }
    FreshEither(files, n, chosen, PlanSelected(files, n));
  }

  lemma FreshEither(files: seq<FilePlan>, n: nat, chosen: seq<Entry>, before: seq<Entry>)
    requires n < |files| && files[n].slots.Some?
    requires forall s :: SlotTaken(before, s) <==> TakenIn(files, n, s)
    requires forall s :: SlotTaken(chosen, s) <==> exists i :: Fills(files, n, i) && files[n].slots.value[i] == s
    ensures TakesFresh(before, chosen)
            <==> forall i :: Fills(files, n, i) ==> !TakenIn(files, n, files[n].slots.value[i])
  {
    var slots := files[n].slots.value;
    if TakesFresh(before, chosen) {
      forall i | Fills(files, n, i) ensures !TakenIn(files, n, slots[i]) {
        assert SlotTaken(chosen, slots[i]);
        var j :| 0 <= j < |chosen| && chosen[j].slot == slots[i];
        assert !SlotTaken(before, chosen[j].slot);
      }
    }
    if forall i :: Fills(files, n, i) ==> !TakenIn(files, n, slots[i]) {
      forall j | 0 <= j < |chosen| ensures !SlotTaken(before, chosen[j].slot) {
        assert SlotTaken(chosen, chosen[j].slot);
        var i :| Fills(files, n, i) && slots[i] == chosen[j].slot;
      }
    }
  }

  // ----- acceptance, both ways -----

  /** What the checks of one file decide, in their order. */
  lemma FileExactly(p: Plan, f: FilePlan, reference: FilePlan)
    ensures var v := FileVerdict(p, f, reference);
            && (v == Decline <==> !SameFile(f, reference))
            && (v == Raise(MappingShape) <==> SameFile(f, reference) && !LengthFits(f))
            && (v == Raise(SourceRange) <==> SameFile(f, reference) && LengthFits(f) && !SourcesFit(f))
            && (v == Raise(DestinationRange) <==>
                  SameFile(f, reference) && LengthFits(f) && SourcesFit(f) && !DestinationsFit(f, p.slotCount))
            && (v == Fine <==> FileAcceptable(f, reference, p.slotCount))
  {
    if f.slots.Some? {
      SomeOutside(f.slots.value, -1, p.slotCount);
    }
    if f.sources.Some? {
      SomeOutside(f.sources.value, 0, f.frameCount);
    }
  }

  lemma SomeOutside(values: seq<int>, lo: int, hi: int)
    ensures (exists d :: d in values && !(lo <= d < hi)) <==> exists i :: 0 <= i < |values| && !(lo <= values[i] < hi)
  {
    if i :| 0 <= i < |values| && !(lo <= values[i] < hi) {
      assert values[i] in values;
    }
  }

  /** Everything before file n of a plan is in order. */
  ghost predicate FilesGood(p: Plan, first: Plan, n: nat) {
    n <= |p.files| == |first.files|
    && (forall k :: 0 <= k < n ==> FileAcceptable(p.files[k], first.files[k], p.slotCount))
    && OnceUpTo(p.files, n)
  }

  lemma FilesGoodStep(p: Plan, first: Plan, n: nat)
    requires n < |p.files| == |first.files|
    ensures FilesGood(p, first, n + 1) <==>
      && FilesGood(p, first, n) && FileAcceptable(p.files[n], first.files[n], p.slotCount) && OnceUpTo(p.files, n + 1)
  {
    hide FileAcceptable, Fills;
    if OnceUpTo(p.files, n + 1) {
      assert OnceUpTo(p.files, n);
    }
  }

  lemma {:induction false} FilesExactly(p: Plan, first: Plan, n: nat)
    requires n <= |p.files| == |first.files|
    ensures FilesVerdict(p, first.files, n) == Fine <==> FilesGood(p, first, n)
  {
    if n > 0 {
      FilesExactly(p, first, n - 1);
      FilesGoodStep(p, first, n - 1);
      FileExactly(p, p.files[n - 1], first.files[n - 1]);
      if FilesGood(p, first, n - 1) && FileAcceptable(p.files[n - 1], first.files[n - 1], p.slotCount) {
        FilesFit(p, first, n);
        DistinctByPlan(p.files, n);
      }
      hide FilesGood, OnceUpTo, FileAcceptable, FileVerdict, PlanSelected, DistinctSlots;
    }
  }

  lemma FilesFit(p: Plan, first: Plan, n: nat)
    requires n <= |p.files| == |first.files|
    requires forall k :: 0 <= k < n ==> FileAcceptable(p.files[k], first.files[k], p.slotCount)
    ensures forall k :: 0 <= k < n ==> ShapeFits(p.files[k])
  {
    forall k | 0 <= k < n ensures ShapeFits(p.files[k]) {
      assert FileAcceptable(p.files[k], first.files[k], p.slotCount);
    }
  }

  lemma PlanExactly(p: Plan, first: Plan)
    requires |p.files| == |first.files| && !p.streaming && p.slotCount == first.slotCount
    ensures PlanVerdict(p, first) == Fine <==> PlanAcceptable(p, first)
  {
    FilesExactly(p, first, |p.files|);
    hide FilesVerdict, FileAcceptable;
    assert FilesGood(p, first, |p.files|) <==> FilesAcceptable(p, first) && FillsOnce(p.files);
  }

  lemma {:induction false} PlansExactly(group: seq<Plan>, n: nat)
    requires Uniform(group) && n <= |group|
    ensures PlansVerdict(group, n) == Fine <==> forall i :: 0 <= i < n ==> PlanVerdict(group[i], group[0]) == Fine
  {
    hide PlanVerdict;
    if n > 0 {
      PlansExactly(group, n - 1);
    }
  }

  /** A group passes every check exactly when it is acceptable. */
  lemma AcceptedExactly(group: seq<Plan>)
    ensures GroupVerdict(group) == Fine <==> Acceptable(group)
  {
    hide PlanVerdict;
    if Acceptable(group) {
      forall i | 0 <= i < |group| ensures !group[i].streaming && group[i].slotCount == group[0].slotCount
        && |group[i].files| == |group[0].files| && PlanVerdict(group[i], group[0]) == Fine {
        assert PlanAcceptable(group[i], group[0]);
        PlanExactly(group[i], group[0]);
      }
      PlansExactly(group, |group|);
    }
    if GroupVerdict(group) == Fine {
      PlansExactly(group, |group|);
      forall i | 0 <= i < |group| ensures PlanAcceptable(group[i], group[0]) {
        assert PlanVerdict(group[i], group[0]) == Fine;
        PlanExactly(group[i], group[0]);
      }
    }
  }

  // ----- why a group is refused -----

  /** Everything before file k of plan p is acceptable. */
  ghost predicate FineUntil(group: seq<Plan>, p: nat, k: nat) {
    && p < |group| && k < |group[p].files| == |group[0].files|
    && (forall i :: 0 <= i < p ==> PlanAcceptable(group[i], group[0]))
    && FilesGood(group[p], group[0], k)
  }

  lemma {:induction false} FirstBadFile(p: Plan, first: Plan, n: nat) returns (k: nat)
    requires n <= |p.files| == |first.files| && FilesVerdict(p, first.files, n) != Fine
    ensures k < n && FilesGood(p, first, k)
    ensures var v := FileVerdict(p, p.files[k], first.files[k]);
            if v != Fine then FilesVerdict(p, first.files, n) == v
            else FilesVerdict(p, first.files, n) == Raise(DuplicateDestination) && !OnceUpTo(p.files, k + 1)
  {
    FilesExactly(p, first, n - 1);
    hide FileVerdict, OnceUpTo, FilesGood, FileAcceptable, PlanSelected, DistinctSlots;
    if FilesVerdict(p, first.files, n - 1) != Fine {
      k := FirstBadFile(p, first, n - 1);
    } else {
      k := n - 1;
      FilesExactly(p, first, n);
      FilesGoodStep(p, first, n - 1);
      FileExactly(p, p.files[n - 1], first.files[n - 1]);
    }
  }

  lemma {:induction false} FirstBadPlan(group: seq<Plan>, n: nat) returns (p: nat)
    requires Uniform(group) && n <= |group| && PlansVerdict(group, n) != Fine
    requires forall i :: 0 <= i < |group| ==> !group[i].streaming && group[i].slotCount == group[0].slotCount
    ensures p < n && PlansVerdict(group, n) == PlanVerdict(group[p], group[0]) != Fine
    ensures forall i :: 0 <= i < p ==> PlanAcceptable(group[i], group[0])
  {
    hide PlanVerdict, PlanAcceptable;
    if PlansVerdict(group, n - 1) != Fine {
      p := FirstBadPlan(group, n - 1);
    } else {
      p := n - 1;
      PlansExactly(group, n - 1);
      forall i | 0 <= i < p ensures PlanAcceptable(group[i], group[0]) {
        PlanExactly(group[i], group[0]);
      }
    }
  }

  /** The first problem of the plans, plan by plan and file by file, says what is answered. */
  ghost predicate Blames(group: seq<Plan>, v: Verdict, p: nat, k: nat) {
    match v
    case Fine => false
    case Decline =>
      || group == [] || (exists i :: 0 <= i < |group| && group[i].streaming)
      || (exists i :: 0 <= i < |group| && group[i].slotCount != group[0].slotCount)
      || (exists i :: 0 <= i < |group| && |group[i].files| != |group[0].files|)
      || (FineUntil(group, p, k) && !SameFile(group[p].files[k], group[0].files[k]))
    case Raise(error) =>
      match error
      case ChunkSizes => false
      case UnalignedHeader => group != [] && !Aligned(group[0])
      case SlotCountRange => p < |group| && !SlotCountFits(group[p])
      case Geometry =>
        p < |group| && !(group[p].frameBytes == group[0].frameBytes && group[p].payloadBytes == group[0].payloadBytes)
      case MappingShape => FineUntil(group, p, k) && !LengthFits(group[p].files[k])
      case SourceRange => FineUntil(group, p, k) && !SourcesFit(group[p].files[k])
      case DestinationRange => FineUntil(group, p, k) && !DestinationsFit(group[p].files[k], group[p].slotCount)
      case DuplicateDestination => FineUntil(group, p, k) && !OnceUpTo(group[p].files, k + 1)
  }

  lemma RefusedForCause(group: seq<Plan>) returns (p: nat, k: nat)
    requires GroupVerdict(group) != Fine
    ensures Blames(group, GroupVerdict(group), p, k)
  {
    p, k := 0, 0;
    if group != [] && Aligned(group[0]) && (forall i :: 0 <= i < |group| ==> !group[i].streaming)
       && (forall i :: 0 <= i < |group| ==> group[i].slotCount == group[0].slotCount) && Uniform(group) {
      p := FirstBadPlan(group, |group|);
      if SlotCountFits(group[p])
         && group[p].frameBytes == group[0].frameBytes && group[p].payloadBytes == group[0].payloadBytes {
        k := FirstBadFile(group[p], group[0], |group[p].files|);
        FileExactly(group[p], group[p].files[k], group[0].files[k]);
        FineFound(group, p, k);
      }
      hide FilesVerdict, FileVerdict, SameFile, LengthFits, SourcesFit, DestinationsFit, FineUntil, OnceUpTo, FilesGood,
        FileAcceptable, PlanAcceptable;
    }
  }

  lemma FineFound(group: seq<Plan>, p: nat, k: nat)
    requires p < |group| && k < |group[p].files| == |group[0].files| && FilesGood(group[p], group[0], k)
    requires forall i :: 0 <= i < p ==> PlanAcceptable(group[i], group[0])
    ensures FineUntil(group, p, k)
  {
    hide FilesGood, PlanAcceptable;
  }

  // ----- reading too much -----

  /** Some plan of the group maps frame `frame` of file k to a slot in [lo, hi). */
  ghost predicate MapsInto(group: seq<Plan>, k: nat, lo: int, hi: int, frame: int) {
    exists p, i :: 0 <= p < |group| && Fills(group[p].files, k, i)
      && lo <= group[p].files[k].slots.value[i] < hi && FrameAt(group[p].files[k], i) == frame
  }

  /** A contiguous read of everything mapped into [lo, hi) takes the frame in. */
  ghost predicate Reads(group: seq<Plan>, k: nat, lo: int, hi: int, frame: int) {
    exists a, b :: a <= frame <= b && MapsInto(group, k, lo, hi, a) && MapsInto(group, k, lo, hi, b)
  }

  /** How many frames of a file of `count` frames that is. */
  ghost function FramesRead(group: seq<Plan>, k: nat, count: nat, lo: int, hi: int): nat {
    |set frame | 0 <= frame < count && Reads(group, k, lo, hi, frame)|
  }

  /** Frames read when the file is read frontier by frontier, over the first n of m. */
  ghost function FramesReadSplit(group: seq<Plan>, k: nat, count: nat, slots: int, m: nat, n: nat): nat
    requires m > 0
  {
    if n == 0 then 0
    else
      FramesReadSplit(group, k, count, slots, m, n - 1)
      + FramesRead(group, k, count, slots * (n - 1) / m, slots * n / m)
  }

  /** The mapping goes backwards somewhere, in slots or in frames. */
  predicate OutOfOrder(f: FilePlan) {
    f.slots.Some?
    && exists i, j :: 0 <= i < j < |f.slots.value| && f.slots.value[i] >= 0 && f.slots.value[j] >= 0
         && (f.slots.value[i] > f.slots.value[j] || FrameAt(f, i) > FrameAt(f, j))
  }

  /** On a file some plan maps out of order, m frontiers read over a twentieth more than one contiguous read. */
  ghost predicate ReadsTooMuch(group: seq<Plan>, k: nat, m: nat)
    requires group != [] && k < |group[0].files| && m > 0
  {
    var count, slots := group[0].files[k].frameCount, group[0].slotCount;
    var whole := FramesRead(group, k, count, 0, slots);
    && (exists p :: 0 <= p < |group| && k < |group[p].files| && OutOfOrder(group[p].files[k]))
    && 20 * (FramesReadSplit(group, k, count, slots, m, m) - whole) > whole
  }

  lemma {:induction false} IntervalSize(lo: int, hi: int, frames: set<int>)
    requires forall x :: x in frames <==> lo <= x < hi
    ensures |frames| == if lo < hi then hi - lo else 0
    decreases hi - lo
  {
    if lo < hi {
      IntervalSize(lo, hi - 1, frames - {hi - 1});
    } else {
      assert frames == {};
    }
  }

  lemma EntryMaps(f: FilePlan, lo: int, hi: int, frame: int)
    requires ShapeFits(f)
    ensures (exists e :: e in Selected(f) && Inside(e, lo, hi) && e.frame == frame) <==>
      exists i :: 0 <= i < |f.slots.value| && f.slots.value[i] >= 0 && lo <= f.slots.value[i] < hi && FrameAt(f, i) == frame
  {
    var slots := f.slots.value;
    if e :| e in Selected(f) && Inside(e, lo, hi) && e.frame == frame {
      SelectedMembers(f, |slots|, e);
      var i :| 0 <= i < |slots| && Picks(f, i, e);
      assert slots[i] >= 0 && lo <= slots[i] < hi && FrameAt(f, i) == frame;
    }
    if i :| 0 <= i < |slots| && slots[i] >= 0 && lo <= slots[i] < hi && FrameAt(f, i) == frame {
      var e := Entry(SourceOf(f, i), slots[i]);
      assert Picks(f, i, e);
      SelectedMembers(f, |slots|, e);
      assert e in Selected(f) && Inside(e, lo, hi) && e.frame == frame;
    }
  }

  /** The shape of an acceptable group, file by file. */
  lemma AcceptableShape(group: seq<Plan>, k: nat)
    requires Acceptable(group) && k < |group[0].files|
    ensures Uniform(group)
    ensures forall p :: 0 <= p < |group| ==> k < |group[p].files| && FileAcceptable(group[p].files[k], group[0].files[k], group[0].slotCount)
    ensures forall p :: 0 <= p < |group| ==> k < |group[p].files| && ShapeFits(group[p].files[k])
  {
    forall p | 0 <= p < |group|
      ensures |group[p].files| == |group[0].files| && ShapeFits(group[p].files[k])
      ensures FileAcceptable(group[p].files[k], group[0].files[k], group[0].slotCount)
    {
      assert PlanAcceptable(group[p], group[0]);
    }
  }

  lemma GroupMaps(group: seq<Plan>, k: nat, lo: int, hi: int, frame: int)
    requires Acceptable(group) && k < |group[0].files| && Uniform(group)
    ensures (exists e :: e in GroupSelected(group, k, |group|) && Inside(e, lo, hi) && e.frame == frame)
            <==> MapsInto(group, k, lo, hi, frame)
    ensures MapsInto(group, k, lo, hi, frame) ==> 0 <= frame < group[0].files[k].frameCount
  {
    AcceptableShape(group, k);
    hide Acceptable, FileAcceptable, MapsInto, GroupSelected, Uniform, ShapeFits;
    if e :| e in GroupSelected(group, k, |group|) && Inside(e, lo, hi) && e.frame == frame {
      GroupSelectedMembers(group, k, |group|, e);
      var p :| 0 <= p < |group| && e in Selected(group[p].files[k]);
      PlanMaps(group, k, p, lo, hi, e);
    }
    if MapsInto(group, k, lo, hi, frame) {
      var p, e := MappingPlan(group, k, lo, hi, frame);
      GroupSelectedMembers(group, k, |group|, e);
    }
  }

  lemma PlanMaps(group: seq<Plan>, k: nat, p: nat, lo: int, hi: int, e: Entry)
    requires p < |group| && k < |group[p].files| && ShapeFits(group[p].files[k])
    requires e in Selected(group[p].files[k]) && Inside(e, lo, hi)
    ensures MapsInto(group, k, lo, hi, e.frame)
  {
    var f := group[p].files[k];
    EntryMaps(f, lo, hi, e.frame);
    hide Selected, ShapeFits;
    var i :| 0 <= i < |f.slots.value| && f.slots.value[i] >= 0 && lo <= f.slots.value[i] < hi && FrameAt(f, i) == e.frame;
    assert Fills(group[p].files, k, i);
  }

  lemma MappingPlan(group: seq<Plan>, k: nat, lo: int, hi: int, frame: int) returns (p: nat, e: Entry)
    requires group != [] && k < |group[0].files| && MapsInto(group, k, lo, hi, frame)
    requires forall p :: 0 <= p < |group| ==> k < |group[p].files| && FileAcceptable(group[p].files[k], group[0].files[k], group[0].slotCount)
    ensures p < |group| && k < |group[p].files| && e in Selected(group[p].files[k]) && Inside(e, lo, hi) && e.frame == frame
    ensures 0 <= frame < group[0].files[k].frameCount
  {
    hide Selected;
    var q, i :| 0 <= q < |group| && Fills(group[q].files, k, i)
                && lo <= group[q].files[k].slots.value[i] < hi && FrameAt(group[q].files[k], i) == frame;
    p := q;
    assert FileAcceptable(group[p].files[k], group[0].files[k], group[0].slotCount);
    EntryMaps(group[p].files[k], lo, hi, frame);
    e :| e in Selected(group[p].files[k]) && Inside(e, lo, hi) && e.frame == frame;
    MappedFrameFits(group[p].files[k], group[0].files[k], group[0].slotCount, i);
  }

  lemma MappedFrameFits(f: FilePlan, reference: FilePlan, slotCount: int, i: nat)
    requires FileAcceptable(f, reference, slotCount) && i < |f.slots.value|
    ensures 0 <= FrameAt(f, i) < reference.frameCount
  {
  }

  /** The planned envelope is the contiguous read, frame for frame. */
  lemma SpanIsRead(group: seq<Plan>, k: nat, lo: int, hi: int)
    requires Acceptable(group) && k < |group[0].files| && Uniform(group)
    ensures forall frame ::
      FileSpan(group, k, lo, hi).start <= frame < FileSpan(group, k, lo, hi).stop <==> Reads(group, k, lo, hi, frame)
    ensures forall frame :: Reads(group, k, lo, hi, frame) ==> 0 <= frame < group[0].files[k].frameCount
  {
    var entries, count := GroupSelected(group, k, |group|), group[0].files[k].frameCount;
    var start, stop := FileSpan(group, k, lo, hi).start, FileSpan(group, k, lo, hi).stop;
    MinFrameIsLeast(entries, lo, hi, count);
    MaxStopIsGreatest(entries, lo, hi, 0);
    hide Acceptable, MapsInto, GroupSelected, Uniform, MinFrame, MaxStop;
    if e :| e in entries && Inside(e, lo, hi) {
      GroupMaps(group, k, lo, hi, e.frame);
      assert start <= e.frame < stop;
      var first :| first in entries && Inside(first, lo, hi) && first.frame == start;
      var last :| last in entries && Inside(last, lo, hi) && last.frame + 1 == stop;
      GroupMaps(group, k, lo, hi, start);
      GroupMaps(group, k, lo, hi, stop - 1);
    } else {
      assert start == count && stop == 0;
    }
    forall frame | start <= frame < stop ensures Reads(group, k, lo, hi, frame) {
      assert start <= frame <= stop - 1;
    }
    forall frame | Reads(group, k, lo, hi, frame) ensures start <= frame < stop && 0 <= frame < count {
      var a, b :| a <= frame <= b && MapsInto(group, k, lo, hi, a) && MapsInto(group, k, lo, hi, b);
      GroupMaps(group, k, lo, hi, a);
      GroupMaps(group, k, lo, hi, b);
    }
  }

  lemma SpanCounts(group: seq<Plan>, k: nat, lo: int, hi: int)
    requires Acceptable(group) && k < |group[0].files| && Uniform(group)
    ensures FramesRead(group, k, group[0].files[k].frameCount, lo, hi) == SpanLength(FileSpan(group, k, lo, hi))
  {
    SpanIsRead(group, k, lo, hi);
    hide Acceptable, Reads, FileSpan, Uniform;
    var count, span := group[0].files[k].frameCount, FileSpan(group, k, lo, hi);
    assert forall frame :: Reads(group, k, lo, hi, frame) ==> 0 <= frame < count;
    IntervalSize(span.start, span.stop, set frame | 0 <= frame < count && Reads(group, k, lo, hi, frame));
  }

  lemma {:induction false} SplitCounts(group: seq<Plan>, k: nat, m: nat, n: nat)
    requires Acceptable(group) && k < |group[0].files| && Uniform(group) && n <= m && m > 0
    ensures FramesReadSplit(group, k, group[0].files[k].frameCount, group[0].slotCount, m, n) == SplitTotal(group, k, m, n)
  {
    var slots := group[0].slotCount;
    hide Acceptable, FramesRead, Uniform, FileSpan;
    if n > 0 {
      SplitCounts(group, k, m, n - 1);
      SpanCounts(group, k, slots * (n - 1) / m, slots * n / m);
    }
  }

  /** Nothing read as a whole, nothing read in parts. */
  lemma {:induction false} NothingSplit(group: seq<Plan>, k: nat, m: nat, n: nat)
    requires Acceptable(group) && k < |group[0].files| && Uniform(group) && n <= m && m > 0
    requires FileSpan(group, k, 0, group[0].slotCount).start >= FileSpan(group, k, 0, group[0].slotCount).stop
    ensures SplitTotal(group, k, m, n) == 0
  {
    if n > 0 {
      NothingSplit(group, k, m, n - 1);
      var slots := group[0].slotCount;
      var lo, hi := Edge(slots, m, n - 1), Edge(slots, m, n);
      SpanIsRead(group, k, 0, slots);
      SpanIsRead(group, k, lo, hi);
      if FrontierSpan(group, k, m, n - 1).start < FrontierSpan(group, k, m, n - 1).stop {
        assert Reads(group, k, lo, hi, FrontierSpan(group, k, m, n - 1).start);
        var a, b :| a <= FrontierSpan(group, k, m, n - 1).start <= b && MapsInto(group, k, lo, hi, a) && MapsInto(group, k, lo, hi, b);
        MappedAnywhere(group, k, lo, hi, a);
        assert Reads(group, k, 0, slots, a);
      }
    }
  }

  lemma MappedAnywhere(group: seq<Plan>, k: nat, lo: int, hi: int, frame: int)
    requires Acceptable(group) && k < |group[0].files| && MapsInto(group, k, lo, hi, frame)
    ensures MapsInto(group, k, 0, group[0].slotCount, frame)
  {
    AcceptableShape(group, k);
    var p, i :| 0 <= p < |group| && Fills(group[p].files, k, i)
                && lo <= group[p].files[k].slots.value[i] < hi && FrameAt(group[p].files[k], i) == frame;
    assert FileAcceptable(group[p].files[k], group[0].files[k], group[0].slotCount);
  }

  lemma OrderedAppend(rest: seq<Entry>, e: Entry)
    ensures IsOrdered(rest + [e]) <==>
      IsOrdered(rest) && forall i :: 0 <= i < |rest| ==> rest[i].slot <= e.slot && rest[i].frame <= e.frame
  {
    var all := rest + [e];
    assert forall i :: 0 <= i < |rest| ==> all[i] == rest[i];
    assert all[|rest|] == e;
  }

  /** Order among the first n mapping entries. */
  predicate InOrderUpTo(f: FilePlan, n: nat)
    requires ShapeFits(f) && n <= |f.slots.value|
  {
    forall i, j :: 0 <= i < j < n && f.slots.value[i] >= 0 && f.slots.value[j] >= 0 ==>
      f.slots.value[i] <= f.slots.value[j] && FrameAt(f, i) <= FrameAt(f, j)
  }

  lemma {:induction false} OrderedByEntry(f: FilePlan, n: nat)
    requires ShapeFits(f) && n <= |f.slots.value|
    ensures IsOrdered(SelectedUpTo(f, n)) <==> InOrderUpTo(f, n)
  {
    if n > 0 {
      OrderedByEntry(f, n - 1);
      var rest := SelectedUpTo(f, n - 1);
      if f.slots.value[n - 1] >= 0 {
        var e := Entry(SourceOf(f, n - 1), f.slots.value[n - 1]);
        OrderedAppend(rest, e);
        BelowByEntry(f, n - 1, e);
        hide SelectedUpTo, IsOrdered;
      }
    }
  }

  lemma BelowByEntry(f: FilePlan, n: nat, e: Entry)
    requires ShapeFits(f) && n <= |f.slots.value|
    ensures (forall i :: 0 <= i < |SelectedUpTo(f, n)| ==> SelectedUpTo(f, n)[i].slot <= e.slot && SelectedUpTo(f, n)[i].frame <= e.frame)
            <==> forall i :: 0 <= i < n && f.slots.value[i] >= 0 ==> f.slots.value[i] <= e.slot && FrameAt(f, i) <= e.frame
  {
    var chosen := SelectedUpTo(f, n);
    forall i | 0 <= i < |chosen| ensures exists j :: 0 <= j < n && Picks(f, j, chosen[i]) {
      SelectedMembers(f, n, chosen[i]);
    }
    forall j | 0 <= j < n && f.slots.value[j] >= 0
      ensures exists i :: 0 <= i < |chosen| && chosen[i] == Entry(FrameAt(f, j), f.slots.value[j])
    {
      var x := Entry(SourceOf(f, j), f.slots.value[j]);
      assert Picks(f, j, x);
      SelectedMembers(f, n, x);
    }
  }

  lemma {:induction false} UnorderedExactly(group: seq<Plan>, k: nat, n: nat)
    requires Acceptable(group) && k < |group[0].files| && Uniform(group) && n <= |group|
    ensures AnyUnordered(group, k, n) <==> exists p :: 0 <= p < n && OutOfOrder(group[p].files[k])
  {
    AcceptableShape(group, k);
    hide Acceptable, FileAcceptable;
    if n > 0 {
      UnorderedExactly(group, k, n - 1);
      var f := group[n - 1].files[k];
      OrderedByEntry(f, |f.slots.value|);
      assert OutOfOrder(f) <==> !InOrderUpTo(f, |f.slots.value|);
      hide OutOfOrder, IsOrdered, InOrderUpTo;
    }
  }

  lemma ExcessiveExactly(group: seq<Plan>, k: nat, m: nat)
    requires Acceptable(group) && k < |group[0].files| && Uniform(group) && m > 0
    ensures FileExcessive(group, k, m) <==> ReadsTooMuch(group, k, m)
  {
    SpanCounts(group, k, 0, group[0].slotCount);
    SplitCounts(group, k, m, m);
    UnorderedExactly(group, k, |group|);
    AcceptableShape(group, k);
    var whole := FileSpan(group, k, 0, group[0].slotCount);
    if whole.start >= whole.stop {
      NothingSplit(group, k, m, m);
    }
    hide Acceptable, FramesRead, FramesReadSplit, SplitTotal, AnyUnordered, OutOfOrder, FileSpan, FileAcceptable, Uniform, ShapeFits;
  }

  lemma {:induction false} GroupExcessiveExactly(group: seq<Plan>, m: nat, n: nat)
    requires Acceptable(group) && Uniform(group) && m > 0 && n <= |group[0].files|
    ensures GroupExcessive(group, m, n) <==> exists k :: 0 <= k < n && ReadsTooMuch(group, k, m)
  {
    hide Acceptable, FileExcessive, ReadsTooMuch, Uniform;
    if n > 0 {
      GroupExcessiveExactly(group, m, n - 1);
      ExcessiveExactly(group, n - 1, m);
    }
  }

  /** Some file of the group would. */
  ghost predicate GroupReadsTooMuch(group: seq<Plan>, m: nat)
    requires m > 0
  {
    group != [] && exists k :: 0 <= k < |group[0].files| && ReadsTooMuch(group, k, m)
  }

  lemma {:induction false} AllExcessiveExactly(groups: seq<seq<Plan>>, m: nat, n: nat)
    requires n <= |groups| && m > 0 && forall g :: 0 <= g < n ==> Acceptable(groups[g])
    ensures Excessive(groups, m, n) <==> exists g :: 0 <= g < n && GroupReadsTooMuch(groups[g], m)
  {
    if n > 0 {
      ExcessiveStep(groups, m, n);
      hide *;
      AllExcessiveExactly(groups, m, n - 1);
    } else {
      hide GroupReadsTooMuch, Acceptable;
    }
  }

  lemma ExcessiveStep(groups: seq<seq<Plan>>, m: nat, n: nat)
    requires 0 < n <= |groups| && m > 0 && Acceptable(groups[n - 1])
    ensures Excessive(groups, m, n) <==> Excessive(groups, m, n - 1) || GroupReadsTooMuch(groups[n - 1], m)
  {
    hide Acceptable, GroupReadsTooMuch, GroupExcessive, Uniform;
    LastExcessive(groups[n - 1], m);
  }

  lemma LastExcessive(group: seq<Plan>, m: nat)
    requires Acceptable(group) && m > 0
    ensures Uniform(group)
    ensures GroupExcessive(group, m, |group[0].files|) <==> GroupReadsTooMuch(group, m)
  {
    AcceptableUniform(group);
    hide Acceptable, ReadsTooMuch, GroupExcessive, Uniform;
    GroupExcessiveExactly(group, m, |group[0].files|);
  }

  lemma AcceptableUniform(group: seq<Plan>)
    requires Acceptable(group)
    ensures Uniform(group)
  {
    forall i | 0 <= i < |group| ensures |group[i].files| == |group[0].files| {
      assert PlanAcceptable(group[i], group[0]);
    }
  }

  // ----- when uploads are cut into tasks -----

  /** The requested number of frontiers, or the fewest slots of a group when that is less. */
  predicate IsFrontierCount(groups: seq<seq<Plan>>, requested: int, m: int) {
    && m <= requested && (forall g :: 0 <= g < |groups| && groups[g] != [] ==> m <= groups[g][0].slotCount)
    && (m == requested || exists g :: 0 <= g < |groups| && groups[g] != [] && m == groups[g][0].slotCount)
  }

  lemma {:induction false} MinSlotsAttained(groups: seq<seq<Plan>>, n: nat, cap: int)
    requires n <= |groups|
    ensures var m := MinSlots(groups, n, cap);
            && m <= cap && (forall g :: 0 <= g < n && groups[g] != [] ==> m <= groups[g][0].slotCount)
            && (m == cap || exists g :: 0 <= g < n && groups[g] != [] && m == groups[g][0].slotCount)
  {
    if n > 0 {
      MinSlotsAttained(groups, n - 1, cap);
    }
  }

  /** The planner cuts into exactly that many frontiers. */
  lemma FrontierCountExactly(groups: seq<seq<Plan>>, requested: int, m: int)
    ensures IsFrontierCount(groups, requested, m) <==> m == EffectiveFrontiers(groups, requested)
  {
    MinSlotsAttained(groups, |groups|, requested);
  }

  lemma {:induction false} GroupsExactly(groups: seq<seq<Plan>>, n: nat)
    requires n <= |groups|
    ensures GroupsVerdict(groups, n) == Fine <==> forall g :: 0 <= g < n ==> Acceptable(groups[g])
  {
    hide GroupVerdict, Acceptable;
    if n > 0 {
      GroupsExactly(groups, n - 1);
      AcceptedExactly(groups[n - 1]);
    }
  }

  /** More than one frontier exactly when more are asked for and every group has more than one slot. */
  lemma ManyFrontiers(groups: seq<seq<Plan>>, requested: int)
    requires requested > 1 && forall g :: 0 <= g < |groups| ==> groups[g] != []
    ensures EffectiveFrontiers(groups, requested) > 1 <==> forall g :: 0 <= g < |groups| ==> groups[g][0].slotCount > 1
  {
    MinSlotsAttained(groups, |groups|, requested);
  }

  /**
   * Uploads are cut into tasks exactly when more than one frontier is asked for, each
   * group has a chunk size, every group is acceptable with more than one slot, and no
   * file that is mapped out of order would read over a twentieth more.
   */
  lemma TasksExactly(groups: seq<seq<Plan>>, chunkBytes: seq<int>, requested: int, m: nat)
    requires IsFrontierCount(groups, requested, m) && m > 0
    ensures PlanUploads(groups, chunkBytes, requested).Tasks? <==>
      && requested > 1 && groups != [] && |chunkBytes| == |groups|
      && (forall g :: 0 <= g < |groups| ==> Acceptable(groups[g]) && groups[g][0].slotCount > 1)
      && forall g :: 0 <= g < |groups| ==> !GroupReadsTooMuch(groups[g], m)
  {
    FrontierCountExactly(groups, requested, m);
    GroupsExactly(groups, |groups|);
    hide GroupsVerdict, EffectiveFrontiers, Excessive, GroupReadsTooMuch;
    if requested > 1 && forall g :: 0 <= g < |groups| ==> Acceptable(groups[g]) {
      ManyFrontiers(groups, requested);
      AllExcessiveExactly(groups, m, |groups|);
      hide Acceptable;
    }
  }

  /** Then there is one task a frontier and group, with the group's own chunk size. */
  lemma TaskNumbers(groups: seq<seq<Plan>>, chunkBytes: seq<int>, requested: int, m: nat, i: nat)
    requires IsFrontierCount(groups, requested, m) && PlanUploads(groups, chunkBytes, requested).Tasks?
    ensures var tasks := PlanUploads(groups, chunkBytes, requested).tasks;
            && |tasks| == m * |groups| && |chunkBytes| == |groups|
            && (i < |tasks| ==>
                  && 0 <= tasks[i].group < |groups| && i == tasks[i].frontier * |groups| + tasks[i].group
                  && tasks[i].chunkBytes == chunkBytes[tasks[i].group] && |tasks[i].plans| == |groups[tasks[i].group]|)
  {
    FrontierCountExactly(groups, requested, m);
    SplittableGroups(groups, requested);
    assert PlanUploads(groups, chunkBytes, requested).tasks == AllTasks(groups, chunkBytes, m);
    hide *;
    TaskNumber(groups, chunkBytes, m, i);
  }

  lemma TaskNumber(groups: seq<seq<Plan>>, chunkBytes: seq<int>, m: nat, i: nat)
    requires |groups| == |chunkBytes| && groups != [] && forall g :: 0 <= g < |groups| ==> Sliceable(groups[g], m)
    ensures var tasks := AllTasks(groups, chunkBytes, m);
            && |tasks| == m * |groups|
            && (i < |tasks| ==>
                  && 0 <= tasks[i].group < |groups| && i == tasks[i].frontier * |groups| + tasks[i].group
                  && tasks[i].chunkBytes == chunkBytes[tasks[i].group] && |tasks[i].plans| == |groups[tasks[i].group]|)
  {
    hide Sliceable, SlicePlan, Edge;
    if i < m * |groups| {
      RowColumn(i, |groups|, m);
    }
  }
}
