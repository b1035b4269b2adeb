/**
 * Joining the frontier pieces of one logical upload (_FrontierPlanCompletion of
 * src/cuphoton/xbeam/ingest_scheduler.py): one resolution for any order of
 * reports, repeated failures included.
 */
module Completion {
  import opened FiniteSets
  import opened Options
  import opened Readiness
  import opened PayloadProgresses

  datatype Resolution = Succeeded | FailedWith(fault: Fault)

  /** `resolved` lists every resolution of the future and of the parent progress. */
  datatype Joint = Joint(remaining: int, terminal: bool, resolved: seq<Resolution>)

  function Open(pieces: nat): Joint {
    Joint(pieces, false, [])
  }

  /** finish. */
  function Report(j: Joint, error: Option<Fault>): Joint {
    if j.terminal then j
    else if error.Some? then j.(terminal := true, resolved := j.resolved + [FailedWith(error.value)])
    else if j.remaining - 1 != 0 then j.(remaining := j.remaining - 1)
    else Joint(0, true, j.resolved + [Succeeded])
  }

  /** What a parent progress is told by a resolution. */
  function ErrorOf(r: Resolution): Option<Fault> {
    if r.Succeeded? then None else Some(r.fault)
  }

  class FrontierPlanCompletion {
    const progress: PayloadProgress
    var remaining: int
    var terminal: bool
    var future: seq<Resolution>

    ghost function State(): Joint
      reads this
    {
      Joint(remaining, terminal, future)
    }

    constructor (parent: PayloadProgress, pieceCount: nat)
      requires pieceCount > 0
      ensures State() == Open(pieceCount) && progress == parent
    {
      progress := parent;
      remaining := pieceCount;
      terminal := false;
      future := [];
    }

    /** The parent progress finishes exactly when the future resolves, with the same error. */
    method FinishPiece(error: Option<Fault>)
      modifies this, progress`finished, progress`error, progress.notifier
      ensures State() == Report(old(State()), error)
      ensures future == old(future) ==> progress.State() == old(progress.State())
      ensures future != old(future) ==>
        && |future| == |old(future)| + 1
        && progress.State() == Finish(old(progress.State()), ErrorOf(future[|future| - 1]))
        && progress.finished
        && progress.error == (if future[|future| - 1].FailedWith? then Some(future[|future| - 1].fault) else None)
    {
      if terminal {
        return;
      }
      if error.Some? {
        terminal := true;
        progress.FinishUpload(error);
        future := future + [FailedWith(error.value)];
        return;
      }
      remaining := remaining - 1;
      if remaining != 0 {
        return;
      }
      terminal := true;
      progress.FinishUpload(None);
      future := future + [Succeeded];
    }
  }

  // ----- publishing a piece -----

  /** The selected destinations of a piece, seen from its plan. */
  function Shifted(destinations: seq<int>, firstSlot: nat): seq<nat> {
    if destinations == [] then []
    else
      var last := destinations[|destinations| - 1];
      Shifted(destinations[..|destinations| - 1], firstSlot) + if last >= 0 then [last + firstSlot] else []
  }

  /** Selected destinations lie in a window of `count` slots, each once. */
  predicate WindowOnce(destinations: seq<int>, count: nat) {
    && (forall i :: 0 <= i < |destinations| ==> destinations[i] < count)
    && forall i, j :: 0 <= i < j < |destinations| && destinations[i] >= 0 ==> destinations[i] != destinations[j]
  }

  lemma {:induction false} ShiftedMembers(destinations: seq<int>, firstSlot: nat, s: int)
    ensures s in Shifted(destinations, firstSlot) <==> s >= firstSlot && s - firstSlot in destinations
  {
    if destinations != [] {
      var last := |destinations| - 1;
      assert destinations == destinations[..last] + [destinations[last]];
      ShiftedMembers(destinations[..last], firstSlot, s);
    }
  }

  /** A piece publishes slots of its own window, each once, when its destinations are such. */
  lemma {:induction false} ShiftedInWindow(destinations: seq<int>, firstSlot: nat, count: nat)
    requires WindowOnce(destinations, count)
    ensures Unique(Shifted(destinations, firstSlot))
    ensures forall s :: s in Shifted(destinations, firstSlot) ==> firstSlot <= s < firstSlot + count
  {
    if destinations != [] {
      var last := |destinations| - 1;
      ShiftedInWindow(destinations[..last], firstSlot, count);
      if destinations[last] >= 0 {
        ShiftedMembers(destinations[..last], firstSlot, destinations[last] + firstSlot);
        assert destinations[last] !in destinations[..last];
      }
    }
  }

  /** Pieces with disjoint windows never publish the same slot. */
  lemma PiecesPublishApart(a: seq<int>, firstA: nat, countA: nat, b: seq<int>, firstB: nat, countB: nat, s: nat)
    requires WindowOnce(a, countA) && WindowOnce(b, countB) && firstA + countA <= firstB
    ensures !(s in Shifted(a, firstA) && s in Shifted(b, firstB))
  {
    ShiftedInWindow(a, firstA, countA);
    ShiftedInWindow(b, firstB, countB);
  }

  lemma {:induction false} ShiftedFits(destinations: seq<int>, firstSlot: nat, n: nat)
    requires forall i :: 0 <= i < |destinations| ==> destinations[i] + firstSlot < n
    ensures InRange(Shifted(destinations, firstSlot), n)
  {
    if destinations != [] {
      ShiftedFits(destinations[..|destinations| - 1], firstSlot, n);
    }
  }

  /** _FrontierPayloadProgress: a sliced plan's readiness, told to its plan. */
  class FrontierPayloadProgress {
    const progress: PayloadProgress
    const completion: FrontierPlanCompletion
    const firstSlot: nat

    constructor (parent: PayloadProgress, joint: FrontierPlanCompletion, first: nat)
      ensures progress == parent && completion == joint && firstSlot == first
    {
      progress, completion, firstSlot := parent, joint, first;
    }

    method Publish(destinations: seq<int>, event: Event)
      requires Sized(progress.State())
      requires forall i :: 0 <= i < |destinations| ==> destinations[i] + firstSlot < progress.tickets.Length
      modifies progress, progress.tickets, progress.notifier
      ensures InRange(Shifted(destinations, firstSlot), |old(progress.State()).tickets|)
      ensures progress.State() == PublishValidated(old(progress.State()), Shifted(destinations, firstSlot), event)
    {
      ShiftedFits(destinations, firstSlot, progress.tickets.Length);
      var selected: seq<nat> := [];
      for i := 0 to |destinations|
        invariant selected == Shifted(destinations[..i], firstSlot)
      {
        assert destinations[..i + 1][..i] == destinations[..i];
        if destinations[i] >= 0 {
          selected := selected + [destinations[i] + firstSlot];
        }
      }
      assert destinations[..|destinations|] == destinations;
      progress.PublishSlots(selected, event);
    }

    method Finish(error: Option<Fault>)
      modifies completion, completion.progress`finished, completion.progress`error, completion.progress.notifier
      ensures completion.State() == Report(old(completion.State()), error)
      ensures completion.future != old(completion.future) ==>
        && |completion.future| == |old(completion.future)| + 1 && completion.progress.finished
        && completion.progress.error
           == (if completion.future[|completion.future| - 1].FailedWith? then Some(completion.future[|completion.future| - 1].fault) else None)
    {
      completion.FinishPiece(error);
    }
  }

  // ----- all interleavings -----

  /** A piece reports how it ended. */
  datatype Notice = Notice(piece: nat, error: Option<Fault>)

  function Joined(pieces: nat, notices: seq<Notice>): Joint {
    if notices == [] then Open(pieces)
    else Report(Joined(pieces, notices[..|notices| - 1]), notices[|notices| - 1].error)
  }

  /** The first n reports are successes. */
  predicate AllSucceed(notices: seq<Notice>, n: nat) {
    n <= |notices| && forall i :: 0 <= i < n ==> notices[i].error.None?
  }

  /** Report k is the first failure and comes before the last piece succeeds. */
  predicate FailsAt(pieces: nat, notices: seq<Notice>, k: nat) {
    k < |notices| && k < pieces && AllSucceed(notices, k) && notices[k].error.Some?
  }

  /** Until every piece has succeeded or one has failed, nothing is resolved. */
  lemma {:induction false} OpenWhileSucceeding(pieces: nat, notices: seq<Notice>)
    requires AllSucceed(notices, |notices|) && |notices| < pieces
    ensures Joined(pieces, notices) == Joint(pieces - |notices|, false, [])
  {
    if notices != [] {
      OpenWhileSucceeding(pieces, notices[..|notices| - 1]);
    }
  }

  lemma {:induction false} ResolvedForGood(pieces: nat, notices: seq<Notice>, n: nat)
    requires n <= |notices| && Joined(pieces, notices[..n]).terminal
    ensures Joined(pieces, notices) == Joined(pieces, notices[..n])
    decreases |notices|
  {
    if n == |notices| {
      assert notices[..n] == notices;
    } else {
      assert notices[..|notices| - 1][..n] == notices[..n];
      ResolvedForGood(pieces, notices[..|notices| - 1], n);
    }
  }

  /** The upload succeeds exactly when the first `pieces` reports are all successes. */
  lemma SucceedsTogether(pieces: nat, notices: seq<Notice>)
    requires pieces > 0 && AllSucceed(notices, pieces)
    ensures Joined(pieces, notices).resolved == [Succeeded]
  {
    var first := notices[..pieces];
    OpenWhileSucceeding(pieces, first[..pieces - 1]);
    assert Joined(pieces, first) == Joint(0, true, [] + [Succeeded]);
    ResolvedForGood(pieces, notices, pieces);
  }

  /** Otherwise it fails with the first error, whatever is reported later. */
  lemma FailsWithFirstError(pieces: nat, notices: seq<Notice>, k: nat)
    requires FailsAt(pieces, notices, k)
    ensures Joined(pieces, notices).resolved == [FailedWith(notices[k].error.value)]
  {
    var first := notices[..k + 1];
    assert first[..k] == notices[..k];
    OpenWhileSucceeding(pieces, first[..k]);
    assert Joined(pieces, first).resolved == [] + [FailedWith(notices[k].error.value)];
    ResolvedForGood(pieces, notices, k + 1);
  }

  lemma {:induction false} FirstFailure(notices: seq<Notice>, n: nat) returns (k: nat)
    requires n <= |notices| && !AllSucceed(notices, n)
    ensures k < n && AllSucceed(notices, k) && notices[k].error.Some?
  {
    if AllSucceed(notices, n - 1) {
      k := n - 1;
    } else {
      k := FirstFailure(notices, n - 1);
    }
  }

  /** Every order of reports resolves the upload at most once, by success or by the first error. */
  lemma ResolvesOnce(pieces: nat, notices: seq<Notice>)
    requires pieces > 0
    ensures var r := Joined(pieces, notices).resolved;
            && |r| <= 1
            && (r == [] <==> |notices| < pieces && AllSucceed(notices, |notices|))
            && (r == [Succeeded] <==> AllSucceed(notices, pieces))
            && (r != [] && r[0].FailedWith? <==> exists k: nat :: FailsAt(pieces, notices, k))
  {
    if AllSucceed(notices, pieces) {
      SucceedsTogether(pieces, notices);
    } else if AllSucceed(notices, |notices|) {
      OpenWhileSucceeding(pieces, notices);
    } else {
      var k := FirstFailure(notices, if pieces <= |notices| then pieces else |notices|);
      assert FailsAt(pieces, notices, k);
      FailsWithFirstError(pieces, notices, k);
    }
  }

  // ----- success means every piece -----

  /** A piece reports success at most once, and only pieces report. */
  predicate SuccessesDiffer(pieces: nat, notices: seq<Notice>) {
    && (forall i :: 0 <= i < |notices| ==> notices[i].piece < pieces)
    && (forall i, j :: 0 <= i < j < |notices| && notices[i].error.None? && notices[j].error.None? ==>
          notices[i].piece != notices[j].piece)
  }

  function Reporters(notices: seq<Notice>): (r: set<nat>)
    ensures forall p :: p in r <==> exists i :: 0 <= i < |notices| && notices[i].piece == p
  {
    if notices == [] then {} else Reporters(notices[..|notices| - 1]) + {notices[|notices| - 1].piece}
  }

  lemma {:induction false} DistinctReporters(pieces: nat, notices: seq<Notice>)
    requires SuccessesDiffer(pieces, notices) && AllSucceed(notices, |notices|)
    ensures |Reporters(notices)| == |notices|
  {
    if notices != [] {
      DistinctReporters(pieces, notices[..|notices| - 1]);
    }
  }

  /** The upload is reported successful only after every one of its pieces has succeeded. */
  lemma SuccessMeansEveryPiece(pieces: nat, notices: seq<Notice>, p: nat) returns (i: nat)
    requires pieces > 0 && SuccessesDiffer(pieces, notices) && p < pieces
    requires Joined(pieces, notices).resolved == [Succeeded]
    ensures i < |notices| && notices[i] == Notice(p, None)
  {
    ResolvesOnce(pieces, notices);
    i := ReporterOf(pieces, notices[..pieces], p);
  }

  lemma ReporterOf(pieces: nat, notices: seq<Notice>, p: nat) returns (i: nat)
    requires SuccessesDiffer(pieces, notices) && AllSucceed(notices, pieces) && |notices| == pieces && p < pieces
    ensures i < |notices| && notices[i] == Notice(p, None)
  {
    hide Reporters;
    DistinctReporters(pieces, notices);
    FullSet(pieces, Reporters(notices), p);
    i :| 0 <= i < |notices| && notices[i].piece == p;
  }
}
