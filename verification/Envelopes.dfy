/**
 * Physical read envelopes of destination frontiers: the CPU scatter reduction,
 * the CPU cut search for ordered mappings
 * (src/cuphoton/xbeam/ingest_scheduler.py) and the GPU sort-and-search
 * planner (src/cuphoton/xbeam/frontier_planning.py).
 */
module Envelopes {
  import opened Sums

  /** One selected mapping entry: a raw frame and the payload slot it fills. */
  datatype Entry = Entry(frame: int, slot: int)

  predicate Inside(e: Entry, lo: int, hi: int) {
    lo <= e.slot < hi
  }

  /** The least frame of the entries with a slot in [lo, hi), at most `start`. */
  function MinFrame(entries: seq<Entry>, lo: int, hi: int, start: int): int {
    if entries == [] then start
    else
      var last := entries[|entries| - 1];
      var r := MinFrame(entries[..|entries| - 1], lo, hi, start);
      if Inside(last, lo, hi) && last.frame < r then last.frame else r
  }

  /** One past the greatest frame of the entries with a slot in [lo, hi), at least `stop`. */
  function MaxStop(entries: seq<Entry>, lo: int, hi: int, stop: int): int {
    if entries == [] then stop
    else
      var last := entries[|entries| - 1];
      var r := MaxStop(entries[..|entries| - 1], lo, hi, stop);
      if Inside(last, lo, hi) && last.frame + 1 > r then last.frame + 1 else r
  }

  lemma {:induction false} MinFrameIsLeast(entries: seq<Entry>, lo: int, hi: int, start: int)
    ensures var r := MinFrame(entries, lo, hi, start);
            && r <= start && (forall e :: e in entries && Inside(e, lo, hi) ==> r <= e.frame)
            && (r == start || exists e :: e in entries && Inside(e, lo, hi) && e.frame == r)
  {
    if entries != [] {
      MinFrameIsLeast(entries[..|entries| - 1], lo, hi, start);
      assert entries[|entries| - 1] in entries;
    }
  }

  lemma {:induction false} MaxStopIsGreatest(entries: seq<Entry>, lo: int, hi: int, stop: int)
    ensures var r := MaxStop(entries, lo, hi, stop);
            && r >= stop && (forall e :: e in entries && Inside(e, lo, hi) ==> e.frame < r)
            && (r == stop || exists e :: e in entries && Inside(e, lo, hi) && e.frame + 1 == r)
  {
    if entries != [] {
      MaxStopIsGreatest(entries[..|entries| - 1], lo, hi, stop);
      assert entries[|entries| - 1] in entries;
    }
  }

  /** Envelopes depend only on which entries are there. */
  lemma SameEntriesSameEnvelope(a: seq<Entry>, b: seq<Entry>, lo: int, hi: int, start: int, stop: int)
    requires forall e :: Inside(e, lo, hi) ==> (e in a <==> e in b)
    ensures MinFrame(a, lo, hi, start) == MinFrame(b, lo, hi, start)
    ensures MaxStop(a, lo, hi, stop) == MaxStop(b, lo, hi, stop)
  {
    MinFrameIsLeast(a, lo, hi, start);
    MinFrameIsLeast(b, lo, hi, start);
    MaxStopIsGreatest(a, lo, hi, stop);
    MaxStopIsGreatest(b, lo, hi, stop);
  }

  predicate Increasing(stops: seq<int>) {
    forall i, j :: 0 <= i < j < |stops| ==> stops[i] < stops[j]
  }

  predicate OrderedBySlot(entries: seq<Entry>) {
    forall i, j :: 0 <= i <= j < |entries| ==> entries[i].slot <= entries[j].slot
  }

  predicate OrderedByFrame(entries: seq<Entry>) {
    forall i, j :: 0 <= i <= j < |entries| ==> entries[i].frame <= entries[j].frame
  }

  predicate DistinctSlots(entries: seq<Entry>) {
    forall i, j :: 0 <= i < j < |entries| ==> entries[i].slot != entries[j].slot
  }

  /** Where frontier q begins: the stop of the one before. */
  function Lower(stops: seq<int>, q: nat): int
    requires q < |stops|
  {
    if q == 0 then 0 else stops[q - 1]
  }

  /** numpy.searchsorted(stops, v, side="right"). */
  function SearchRight(stops: seq<int>, v: int): (r: nat)
    requires Increasing(stops)
    ensures r <= |stops|
    ensures forall i :: 0 <= i < r ==> stops[i] <= v
    ensures forall i :: r <= i < |stops| ==> v < stops[i]
  {
    if stops != [] && stops[|stops| - 1] <= v then |stops|
    else if stops == [] then 0
    else SearchRight(stops[..|stops| - 1], v)
  }

  /** numpy.searchsorted over the slots of ordered entries, side="left". */
  function SearchLeft(entries: seq<Entry>, v: int): (r: nat)
    requires OrderedBySlot(entries)
    ensures r <= |entries|
    ensures forall i :: 0 <= i < r ==> entries[i].slot < v
    ensures forall i :: r <= i < |entries| ==> v <= entries[i].slot
  {
    if entries != [] && entries[|entries| - 1].slot < v then |entries|
    else if entries == [] then 0
    else SearchLeft(entries[..|entries| - 1], v)
  }

  /** Every slot below the last stop lies in exactly the frontier the search finds. */
  lemma BucketIsFrontier(stops: seq<int>, e: Entry)
    requires Increasing(stops) && 0 <= e.slot
    ensures forall q :: 0 <= q < |stops| ==>
      (q == SearchRight(stops, e.slot) <==> Inside(e, Lower(stops, q), stops[q]))
  {
  }

  /** The starts of all frontiers, lowered by the entries. */
  function MinFrames(entries: seq<Entry>, stops: seq<int>, starts: seq<int>): (r: seq<int>)
    requires |starts| == |stops|
    ensures |r| == |stops|
  {
    seq(|stops|, q requires 0 <= q < |stops| => MinFrame(entries, Lower(stops, q), stops[q], starts[q]))
  }

  /** The ends of all frontiers, raised by the entries. */
  function MaxStops(entries: seq<Entry>, stops: seq<int>, ends: seq<int>): (r: seq<int>)
    requires |ends| == |stops|
    ensures |r| == |stops|
  {
    seq(|stops|, q requires 0 <= q < |stops| => MaxStop(entries, Lower(stops, q), stops[q], ends[q]))
  }

  predicate Bucketed(entries: seq<Entry>, stops: seq<int>) {
    Increasing(stops) && stops != [] && 0 <= stops[0]
    && forall e :: e in entries ==> 0 <= e.slot < stops[|stops| - 1]
  }

  lemma MinFrameAppend(entries: seq<Entry>, n: nat, lo: int, hi: int, start: int)
    requires n < |entries|
    ensures var r := MinFrame(entries[..n], lo, hi, start);
            MinFrame(entries[..n + 1], lo, hi, start)
            == if Inside(entries[n], lo, hi) && entries[n].frame < r then entries[n].frame else r
  {
    assert entries[..n + 1][..n] == entries[..n];
  }

  lemma MinFramesAt(entries: seq<Entry>, n: nat, stops: seq<int>, starts: seq<int>, q: nat)
    requires n < |entries| && |starts| == |stops| && Bucketed(entries, stops) && q < |stops|
    ensures var r := MinFrames(entries[..n], stops, starts)[q];
            MinFrames(entries[..n + 1], stops, starts)[q]
            == if q == SearchRight(stops, entries[n].slot) && entries[n].frame < r then entries[n].frame else r
  {
    assert entries[n] in entries;
    BucketIsFrontier(stops, entries[n]);
    hide SearchRight, MinFrame;
    MinFrameAppend(entries, n, Lower(stops, q), stops[q], starts[q]);
  }

  lemma MinFramesStep(entries: seq<Entry>, n: nat, stops: seq<int>, starts: seq<int>, now: seq<int>, next: seq<int>)
    requires n < |entries| && |starts| == |stops| == |next| && Bucketed(entries, stops)
    requires now == MinFrames(entries[..n], stops, starts)
    requires forall q :: 0 <= q < |stops| ==>
      next[q] == if q == SearchRight(stops, entries[n].slot) && entries[n].frame < now[q] then entries[n].frame else now[q]
    ensures next == MinFrames(entries[..n + 1], stops, starts)
  {
    hide SearchRight, MinFrames, Bucketed;
    forall q | 0 <= q < |stops| ensures next[q] == MinFrames(entries[..n + 1], stops, starts)[q] {
      MinFramesAt(entries, n, stops, starts, q);
    }
  }

  lemma MaxStopAppend(entries: seq<Entry>, n: nat, lo: int, hi: int, start: int)
    requires n < |entries|
    ensures var r := MaxStop(entries[..n], lo, hi, start);
            MaxStop(entries[..n + 1], lo, hi, start)
            == if Inside(entries[n], lo, hi) && entries[n].frame + 1 > r then entries[n].frame + 1 else r
  {
    assert entries[..n + 1][..n] == entries[..n];
  }

  lemma MaxStopsAt(entries: seq<Entry>, n: nat, stops: seq<int>, ends: seq<int>, q: nat)
    requires n < |entries| && |ends| == |stops| && Bucketed(entries, stops) && q < |stops|
    ensures var r := MaxStops(entries[..n], stops, ends)[q];
            MaxStops(entries[..n + 1], stops, ends)[q]
            == if q == SearchRight(stops, entries[n].slot) && entries[n].frame + 1 > r then entries[n].frame + 1 else r
  {
    assert entries[n] in entries;
    BucketIsFrontier(stops, entries[n]);
    hide SearchRight, MaxStop;
    MaxStopAppend(entries, n, Lower(stops, q), stops[q], ends[q]);
  }

  lemma MaxStopsStep(entries: seq<Entry>, n: nat, stops: seq<int>, ends: seq<int>, now: seq<int>, next: seq<int>)
    requires n < |entries| && |ends| == |stops| == |next| && Bucketed(entries, stops)
    requires now == MaxStops(entries[..n], stops, ends)
    requires forall q :: 0 <= q < |stops| ==>
      next[q] == if q == SearchRight(stops, entries[n].slot) && entries[n].frame + 1 > now[q] then entries[n].frame + 1 else now[q]
    ensures next == MaxStops(entries[..n + 1], stops, ends)
  {
    hide SearchRight, MaxStops, Bucketed;
    forall q | 0 <= q < |stops| ensures next[q] == MaxStops(entries[..n + 1], stops, ends)[q] {
      MaxStopsAt(entries, n, stops, ends, q);
    }
  }

  lemma NoEntriesNoChange(stops: seq<int>, values: seq<int>)
    requires |values| == |stops|
    ensures MinFrames([], stops, values) == values == MaxStops([], stops, values)
  {
  }

  /** numpy.minimum.at over the destination buckets. */
  method ScatterMinimum(entries: seq<Entry>, stops: seq<int>, starts: array<int>)
    requires starts.Length == |stops| && Bucketed(entries, stops)
    modifies starts
    ensures starts[..] == MinFrames(entries, stops, old(starts[..]))
  {
    ghost var before := starts[..];
    NoEntriesNoChange(stops, before);
    for n := 0 to |entries|
      invariant starts[..] == MinFrames(entries[..n], stops, before)
    {
      ghost var now := starts[..];
      assert entries[n] in entries;
      var bucket := SearchRight(stops, entries[n].slot);
      if entries[n].frame < starts[bucket] {
        starts[bucket] := entries[n].frame;
      }
      MinFramesStep(entries, n, stops, before, now, starts[..]);
    }
    assert entries[..|entries|] == entries;
  }

  /** numpy.maximum.at over the destination buckets. */
  method ScatterMaximum(entries: seq<Entry>, stops: seq<int>, ends: array<int>)
    requires ends.Length == |stops| && Bucketed(entries, stops)
    modifies ends
    ensures ends[..] == MaxStops(entries, stops, old(ends[..]))
  {
    ghost var before := ends[..];
    NoEntriesNoChange(stops, before);
    for n := 0 to |entries|
      invariant ends[..] == MaxStops(entries[..n], stops, before)
    {
      ghost var now := ends[..];
      assert entries[n] in entries;
      var bucket := SearchRight(stops, entries[n].slot);
      if entries[n].frame + 1 > ends[bucket] {
        ends[bucket] := entries[n].frame + 1;
      }
      MaxStopsStep(entries, n, stops, before, now, ends[..]);
    }
    assert entries[..|entries|] == entries;
  }

  /** The entries of [lo, hi) form one run of a sequence ordered by slot. */
  lemma OrderedRun(entries: seq<Entry>, lo: int, hi: int)
    requires OrderedBySlot(entries) && lo <= hi
    ensures SearchLeft(entries, lo) <= SearchLeft(entries, hi)
    ensures forall i :: 0 <= i < |entries| ==>
      (Inside(entries[i], lo, hi) <==> SearchLeft(entries, lo) <= i < SearchLeft(entries, hi))
  {
  }

  /** With frames ordered too, the ends of that run bound the envelope. */
  lemma OrderedEnvelope(entries: seq<Entry>, lo: int, hi: int, start: int, stop: int)
    requires OrderedBySlot(entries) && OrderedByFrame(entries) && lo <= hi
    ensures var i, j := SearchLeft(entries, lo), SearchLeft(entries, hi);
            && i <= j
            && MinFrame(entries, lo, hi, start) == (if i < j && entries[i].frame < start then entries[i].frame else start)
            && MaxStop(entries, lo, hi, stop)
               == (if i < j && entries[j - 1].frame + 1 > stop then entries[j - 1].frame + 1 else stop)
  {
    OrderedRun(entries, lo, hi);
    var i, j := SearchLeft(entries, lo), SearchLeft(entries, hi);
    MinFrameIsLeast(entries, lo, hi, start);
    MaxStopIsGreatest(entries, lo, hi, stop);
    if i < j {
      assert entries[i] in entries && entries[j - 1] in entries;
    }
  }

  function MinInt(a: int, b: int): int { if a <= b then a else b }

  function MaxInt(a: int, b: int): int { if a >= b then a else b }

  /** The start of frontier q lowered by the first frame between its two cuts, if any. */
  function CutStart(entries: seq<Entry>, stops: seq<int>, q: nat, start: int): (r: int)
    requires Bucketed(entries, stops) && q < |stops|
    requires OrderedBySlot(entries) && OrderedByFrame(entries)
    ensures r == MinFrame(entries, Lower(stops, q), stops[q], start)
  {
    OrderedEnvelope(entries, Lower(stops, q), stops[q], start, start);
    var lo, hi := SearchLeft(entries, Lower(stops, q)), SearchLeft(entries, stops[q]);
    if lo < hi then MinInt(start, entries[lo].frame) else start
  }

  /** The end of frontier q raised by the last frame between its two cuts, if any. */
  function CutStop(entries: seq<Entry>, stops: seq<int>, q: nat, stop: int): (r: int)
    requires Bucketed(entries, stops) && q < |stops|
    requires OrderedBySlot(entries) && OrderedByFrame(entries)
    ensures r == MaxStop(entries, Lower(stops, q), stops[q], stop)
  {
    OrderedEnvelope(entries, Lower(stops, q), stops[q], stop, stop);
    var lo, hi := SearchLeft(entries, Lower(stops, q)), SearchLeft(entries, stops[q]);
    if lo < hi then MaxInt(stop, entries[hi - 1].frame + 1) else stop
  }

  /** The searchsorted path for mappings already in slot and frame order. */
  method CutBounds(entries: seq<Entry>, stops: seq<int>, starts: array<int>, ends: array<int>)
    requires starts.Length == |stops| == ends.Length && starts != ends
    requires Bucketed(entries, stops) && OrderedBySlot(entries) && OrderedByFrame(entries)
    modifies starts, ends
    ensures starts[..] == MinFrames(entries, stops, old(starts[..]))
    ensures ends[..] == MaxStops(entries, stops, old(ends[..]))
  {
    ghost var startsBefore, endsBefore := starts[..], ends[..];
    ghost var least, most := MinFrames(entries, stops, startsBefore), MaxStops(entries, stops, endsBefore);
    for frontier := 0 to |stops|
      invariant forall q :: 0 <= q < frontier ==> starts[q] == least[q] && ends[q] == most[q]
      invariant forall q :: frontier <= q < |stops| ==> starts[q] == startsBefore[q] && ends[q] == endsBefore[q]
    {
      starts[frontier], ends[frontier] :=
        CutStart(entries, stops, frontier, starts[frontier]), CutStop(entries, stops, frontier, ends[frontier]);
    }
  }

  // ----- GPU planner -----

  datatype GpuPlan = DuplicateSlot | Bounds(bounds: seq<(int, int)>)

  function InsertBySlot(x: Entry, s: seq<Entry>): (r: seq<Entry>)
    requires OrderedBySlot(s)
    ensures OrderedBySlot(r) && multiset(r) == multiset(s) + multiset{x}
  {
    if s == [] || x.slot <= s[0].slot then [x] + s
    else
      assert s == [s[0]] + s[1..];
      var rest := InsertBySlot(x, s[1..]);
      PrependOrdered(s[0], rest);
      [s[0]] + rest
  }

  lemma PrependOrdered(a: Entry, rest: seq<Entry>)
    requires OrderedBySlot(rest) && forall e :: e in multiset(rest) ==> a.slot <= e.slot
    ensures OrderedBySlot([a] + rest) && multiset([a] + rest) == multiset(rest) + multiset{a}
  {
    var whole := [a] + rest;
    forall i, j | 0 <= i <= j < |whole| ensures whole[i].slot <= whole[j].slot {
      if i == 0 < j {
        assert rest[j - 1] in multiset(rest);
      }
    }
  }

  /** device_destinations[argsort(device_destinations)], with the frames alongside. */
  function SortBySlot(s: seq<Entry>): (r: seq<Entry>)
    ensures OrderedBySlot(r) && multiset(r) == multiset(s)
  {
    if s == [] then []
    else
      assert s == [s[0]] + s[1..];
      InsertBySlot(s[0], SortBySlot(s[1..]))
  }

  predicate NeighboursDiffer(s: seq<Entry>) {
    forall i :: 0 <= i < |s| - 1 ==> s[i].slot != s[i + 1].slot
  }

  lemma SortedNeighbours(s: seq<Entry>)
    requires OrderedBySlot(s)
    ensures NeighboursDiffer(s) <==> DistinctSlots(s)
  {
    if NeighboursDiffer(s) {
      forall i, j | 0 <= i < j < |s| ensures s[i].slot != s[j].slot {
        assert s[i].slot != s[i + 1].slot;
      }
    }
  }

  /** Sorting brings equal slots together, so neighbours decide duplication. */
  lemma {:induction false} SortedNeighboursDecide(s: seq<Entry>)
    ensures DistinctSlots(s) <==> NeighboursDiffer(SortBySlot(s))
  {
    var r := SortBySlot(s);
    SortedNeighbours(r);
    if DistinctSlots(s) {
      DistinctIsPermutationInvariant(s, r);
    }
    if DistinctSlots(r) {
      DistinctIsPermutationInvariant(r, s);
    }
  }

  lemma {:induction false} DistinctIsPermutationInvariant(s: seq<Entry>, r: seq<Entry>)
    requires multiset(s) == multiset(r) && DistinctSlots(s)
    ensures DistinctSlots(r)
  {
    forall i, j | 0 <= i < j < |r| ensures r[i].slot != r[j].slot {
      assert r[i] in multiset(r) && r[j] in multiset(r);
      if r[i] == r[j] {
        SeenTwice(r, i, j);
        MultiplicityOne(s, r[i]);
      } else {
        assert r[i] in multiset(s) && r[j] in multiset(s);
      }
    }
  }


  lemma {:induction false} MultiplicityOne(s: seq<Entry>, e: Entry)
    requires DistinctSlots(s)
    ensures multiset(s)[e] <= 1
  {
    if s != [] {
      assert s == s[..|s| - 1] + [s[|s| - 1]];
      MultiplicityOne(s[..|s| - 1], e);
      if s[|s| - 1] == e {
        assert e !in s[..|s| - 1];
      }
    }
  }

  /** The least and one past the greatest frame of ordered[lo..hi], or (-1, -1) when it is empty. */
  method ReduceRun(ordered: seq<Entry>, lo: nat, hi: nat) returns (pair: (int, int))
    requires hi <= |ordered|
    ensures lo >= hi ==> pair == (-1, -1)
    ensures lo < hi ==> IsRunBounds(ordered, lo, hi, pair)
  {
    if lo >= hi {
      return (-1, -1);
    }
    var least, most := ordered[lo].frame, ordered[lo].frame;
    for k := lo + 1 to hi
      invariant IsRunBounds(ordered, lo, k, (least, most + 1))
    {
      if ordered[k].frame < least { least := ordered[k].frame; }
      if ordered[k].frame > most { most := ordered[k].frame; }
    }
    pair := (least, most + 1);
  }

  ghost predicate IsRunBounds(ordered: seq<Entry>, lo: nat, hi: nat, pair: (int, int)) {
    && lo <= hi <= |ordered|
    && (forall k :: lo <= k < hi ==> pair.0 <= ordered[k].frame < pair.1)
    && (exists k :: lo <= k < hi && ordered[k].frame == pair.0)
    && (exists k :: lo <= k < hi && ordered[k].frame + 1 == pair.1)
  }

  /**
   * Sort, search and reduce. Frontiers without entries get (-1, -1); a repeated
   * destination is refused.
   */
  method GpuFrontierBounds(entries: seq<Entry>, stops: seq<int>) returns (r: GpuPlan)
    requires Bucketed(entries, stops)
    requires forall e :: e in entries ==> 0 <= e.frame
    ensures r.DuplicateSlot? <==> !DistinctSlots(entries)
    ensures r.Bounds? ==> |r.bounds| == |stops|
    ensures r.Bounds? ==> forall q :: 0 <= q < |stops| ==>
      RangeBounds(entries, Lower(stops, q), stops[q], r.bounds[q])
  {
    var ordered := SortBySlot(entries);
    SortedNeighboursDecide(entries);
    if !NeighboursDiffer(ordered) {
      return DuplicateSlot;
    }
    var bounds: seq<(int, int)> := [];
    for frontier := 0 to |stops|
      invariant |bounds| == frontier
      invariant forall q :: 0 <= q < frontier ==> RangeBounds(entries, Lower(stops, q), stops[q], bounds[q])
    {
      var pair := ReduceRun(ordered, SearchLeft(ordered, Lower(stops, frontier)), SearchLeft(ordered, stops[frontier]));
      RunBounds(entries, ordered, Lower(stops, frontier), stops[frontier], pair);
      bounds := bounds + [pair];
    }
    r := Bounds(bounds);
  }

  /** Merging device bounds where they are not negative, as the host does. */
  method MergeBounds(ghost entries: seq<Entry>, stops: seq<int>, bounds: seq<(int, int)>,
                     starts: array<int>, ends: array<int>)
    requires starts.Length == |stops| == ends.Length == |bounds| && starts != ends
    requires forall q :: 0 <= q < |stops| ==> RangeBounds(entries, Lower(stops, q), stops[q], bounds[q])
    modifies starts, ends
    ensures starts[..] == MinFrames(entries, stops, old(starts[..]))
    ensures ends[..] == MaxStops(entries, stops, old(ends[..]))
  {
    hide RangeBounds, MinFrame, MaxStop, Lower;
    ghost var startsBefore, endsBefore := starts[..], ends[..];
    ghost var least, most := MinFrames(entries, stops, startsBefore), MaxStops(entries, stops, endsBefore);
    for frontier := 0 to |stops|
      invariant forall q :: 0 <= q < frontier ==> starts[q] == least[q] && ends[q] == most[q]
      invariant forall q :: frontier <= q < |stops| ==> starts[q] == startsBefore[q] && ends[q] == endsBefore[q]
    {
      RangeBoundsMerge(entries, Lower(stops, frontier), stops[frontier], bounds[frontier], starts[frontier], ends[frontier]);
      if bounds[frontier].0 >= 0 {
        if bounds[frontier].0 < starts[frontier] { starts[frontier] := bounds[frontier].0; }
        if bounds[frontier].1 > ends[frontier] { ends[frontier] := bounds[frontier].1; }
      }
    }
  }

  /** Merging the envelope of a range is lowering and raising by its entries. */
  lemma RangeBoundsMerge(entries: seq<Entry>, lo: int, hi: int, pair: (int, int), start: int, stop: int)
    requires RangeBounds(entries, lo, hi, pair)
    ensures MinFrame(entries, lo, hi, start) == (if 0 <= pair.0 < start then pair.0 else start)
    ensures MaxStop(entries, lo, hi, stop) == (if 0 <= pair.0 && pair.1 > stop then pair.1 else stop)
  {
    MinFrameIsLeast(entries, lo, hi, start);
    MaxStopIsGreatest(entries, lo, hi, stop);
  }

  /** `pair` is the envelope of the entries in [lo, hi), or negative when there are none. */
  ghost predicate RangeBounds(entries: seq<Entry>, lo: int, hi: int, pair: (int, int)) {
    if pair.0 < 0 then forall e :: e in entries ==> !Inside(e, lo, hi)
    else
      && (forall e :: e in entries && Inside(e, lo, hi) ==> pair.0 <= e.frame < pair.1)
      && (exists e :: e in entries && Inside(e, lo, hi) && e.frame == pair.0)
      && (exists e :: e in entries && Inside(e, lo, hi) && e.frame + 1 == pair.1)
  }

  lemma RunBounds(entries: seq<Entry>, ordered: seq<Entry>, lo: int, hi: int, pair: (int, int))
    requires OrderedBySlot(ordered) && multiset(ordered) == multiset(entries) && lo <= hi
    requires forall e :: e in entries ==> 0 <= e.frame
    requires var i, j := SearchLeft(ordered, lo), SearchLeft(ordered, hi);
             if i < j then IsRunBounds(ordered, i, j, pair) else pair.0 < 0
    ensures RangeBounds(entries, lo, hi, pair)
  {
    OrderedRun(ordered, lo, hi);
    SameMembers(ordered, entries);
    forall e | e in entries && Inside(e, lo, hi)
      ensures SearchLeft(ordered, lo) < SearchLeft(ordered, hi) && pair.0 <= e.frame < pair.1
    {
      assert e in ordered;
      var k :| 0 <= k < |ordered| && ordered[k] == e;
    }
    var i, j := SearchLeft(ordered, lo), SearchLeft(ordered, hi);
    if i < j {
      var a :| i <= a < j && ordered[a].frame == pair.0;
      var b :| i <= b < j && ordered[b].frame + 1 == pair.1;
      assert ordered[a] in ordered && ordered[b] in ordered;
    }
  }

  lemma SameMembers(a: seq<Entry>, b: seq<Entry>)
    requires multiset(a) == multiset(b)
    ensures forall e :: e in a <==> e in b
  {
    forall e ensures e in a <==> e in b {
      assert e in a <==> e in multiset(a);
      assert e in b <==> e in multiset(b);
    }
  }
}
