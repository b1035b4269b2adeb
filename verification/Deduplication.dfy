/**
 * Sharing identical raw reads (_deduplicate_payload_plan_groups of
 * src/cuphoton/xbeam/ingest_scheduler.py): plans are objects, compared field by
 * field unless they stream.
 */
module Deduplication {
  import opened Frontier
  import opened Options

  /** A plan object; `id` is its identity. */
  datatype PlanObject = PlanObject(id: nat, plan: Plan)

  /** _same_payload_file_plan. */
  predicate SameFile(a: FilePlan, b: FilePlan) {
    && a.path == b.path && a.frameCount == b.frameCount && a.firstFrame == b.firstFrame
    && a.stamp.sizeBytes == b.stamp.sizeBytes && a.stamp.mtimeNs == b.stamp.mtimeNs
    && a.stamp.device == b.stamp.device && a.stamp.inode == b.stamp.inode
    && a.slots.Some? && b.slots.Some? && a.slots.value == b.slots.value
    && (a.sources.None? <==> b.sources.None?)
    && (a.sources.Some? ==> a.sources.value == b.sources.value)
  }

  /** _same_payload_plan. */
  predicate SamePlan(a: PlanObject, b: PlanObject) {
    if a.plan.streaming || b.plan.streaming then a.id == b.id
    else
      && a.plan.frameBytes == b.plan.frameBytes && a.plan.payloadBytes == b.plan.payloadBytes
      && a.plan.slotCount == b.plan.slotCount && |a.plan.files| == |b.plan.files|
      && forall i :: 0 <= i < |a.plan.files| ==> SameFile(a.plan.files[i], b.plan.files[i])
  }

  predicate SameGroup(group: seq<PlanObject>, candidate: seq<PlanObject>) {
    |candidate| == |group| && forall i :: 0 <= i < |group| ==> SamePlan(group[i], candidate[i])
  }

  /** The first of the n earliest candidates that matches, or n. */
  function FirstMatch(unique: seq<seq<PlanObject>>, group: seq<PlanObject>, n: nat): (k: nat)
    requires n <= |unique|
    ensures k <= n
    ensures k < n ==> SameGroup(group, unique[k])
    ensures forall i :: 0 <= i < k ==> !SameGroup(group, unique[i])
  {
    if n == 0 then 0
    else
      var k := FirstMatch(unique, group, n - 1);
      if k < n - 1 || SameGroup(group, unique[n - 1]) then k else n
  }

  /** The group whose upload a group shares: the first match, or itself. */
  function Canonical(unique: seq<seq<PlanObject>>, group: seq<PlanObject>): (c: seq<PlanObject>)
    ensures |c| == |group|
  {
    var k := FirstMatch(unique, group, |unique|);
    if k < |unique| then unique[k] else group
  }

  /** The canonical groups of the first n groups. */
  function UniqueUpTo(groups: seq<seq<PlanObject>>, n: nat): seq<seq<PlanObject>>
    requires n <= |groups|
  {
    if n == 0 then []
    else
      var before := UniqueUpTo(groups, n - 1);
      if FirstMatch(before, groups[n - 1], |before|) < |before| then before else before + [groups[n - 1]]
  }

  /** The aliases after the first n groups, and the first m plans of the next. */
  function AliasesUpTo(groups: seq<seq<PlanObject>>, n: nat, m: nat): map<nat, PlanObject>
    requires n <= |groups| && (m > 0 ==> n < |groups| && m <= |groups[n]|)
    decreases n, m
  {
    if m > 0 then
      AliasesUpTo(groups, n, m - 1)[groups[n][m - 1].id := Canonical(UniqueUpTo(groups, n), groups[n])[m - 1]]
    else if n > 0 then AliasesUpTo(groups, n - 1, |groups[n - 1]|)
    else map[]
  }

  method Deduplicate(groups: seq<seq<PlanObject>>) returns (unique: seq<seq<PlanObject>>, aliases: map<nat, PlanObject>)
    ensures unique == UniqueUpTo(groups, |groups|)
    ensures aliases == AliasesUpTo(groups, |groups|, 0)
  {
    unique, aliases := [], map[];
    for n := 0 to |groups|
      invariant unique == UniqueUpTo(groups, n)
      invariant aliases == AliasesUpTo(groups, n, 0)
    {
      var group := groups[n];
      var k := FirstMatch(unique, group, |unique|);
      var canonical := if k < |unique| then unique[k] else group;
      assert canonical == Canonical(UniqueUpTo(groups, n), group);
      if k == |unique| {
        unique := unique + [group];
      }
      for m := 0 to |group|
        invariant aliases == AliasesUpTo(groups, n, m)
      {
        aliases := aliases[group[m].id := canonical[m]];
      }
    }
  }

  // ----- what sharing keeps -----

  /** Every file says where its frames go. */
  predicate Indexed(p: Plan) {
    forall i :: 0 <= i < |p.files| ==> p.files[i].slots.Some?
  }

  /** Plans match exactly when they are the same object or equal indexed plans; a streaming plan matches only itself. */
  lemma SamePlanExact(a: PlanObject, b: PlanObject)
    ensures SamePlan(a, b) <==>
      if a.plan.streaming || b.plan.streaming then a.id == b.id else a.plan == b.plan && Indexed(a.plan)
  {
    if !a.plan.streaming && !b.plan.streaming && SamePlan(a, b) {
      forall i | 0 <= i < |a.plan.files| ensures a.plan.files[i] == b.plan.files[i] {
        assert SameFile(a.plan.files[i], b.plan.files[i]);
      }
      assert a.plan.files == b.plan.files;
    }
  }

  /** An identity stands for one plan. */
  predicate Named(groups: seq<seq<PlanObject>>) {
    forall g, i, h, j :: 0 <= g < |groups| && 0 <= i < |groups[g]| && 0 <= h < |groups| && 0 <= j < |groups[h]| ==>
      (groups[g][i].id == groups[h][j].id ==> groups[g][i].plan == groups[h][j].plan)
  }

  lemma {:induction false} UniqueFromGroups(groups: seq<seq<PlanObject>>, n: nat, k: nat)
    requires n <= |groups| && k < |UniqueUpTo(groups, n)|
    ensures exists g :: 0 <= g < n && UniqueUpTo(groups, n)[k] == groups[g]
  {
    hide FirstMatch;
    if k < |UniqueUpTo(groups, n - 1)| {
      UniqueFromGroups(groups, n - 1, k);
    }
  }

  /** No two canonical groups could have been shared. */
  lemma {:induction false} UniqueDiffer(groups: seq<seq<PlanObject>>, n: nat, i: nat, j: nat)
    requires n <= |groups| && i < j < |UniqueUpTo(groups, n)|
    ensures !SameGroup(UniqueUpTo(groups, n)[j], UniqueUpTo(groups, n)[i])
  {
    if j < |UniqueUpTo(groups, n - 1)| {
      UniqueDiffer(groups, n - 1, i, j);
    }
  }

  /** A canonical plan is the plan itself or one with the same contents. */
  lemma CanonicalSame(groups: seq<seq<PlanObject>>, n: nat, m: nat)
    requires Named(groups) && n < |groups| && m < |groups[n]|
    ensures Canonical(UniqueUpTo(groups, n), groups[n])[m].plan == groups[n][m].plan
  {
    var unique := UniqueUpTo(groups, n);
    var k := FirstMatch(unique, groups[n], |unique|);
    if k < |unique| {
      SamePlanExact(groups[n][m], unique[k][m]);
      UniqueFromGroups(groups, n, k);
    }
  }

  /** The plans handled so far all have an alias with the same contents. */
  lemma {:induction false} AliasesSame(groups: seq<seq<PlanObject>>, n: nat, m: nat, g: nat, i: nat)
    requires Named(groups) && n <= |groups| && (m > 0 ==> n < |groups| && m <= |groups[n]|)
    requires g < |groups| && i < |groups[g]| && (g < n || (g == n && i < m))
    ensures groups[g][i].id in AliasesUpTo(groups, n, m)
    ensures AliasesUpTo(groups, n, m)[groups[g][i].id].plan == groups[g][i].plan
    decreases n, m
  {
    hide UniqueUpTo, Canonical;
    if m > 0 {
      CanonicalSame(groups, n, m - 1);
      if g < n || i < m - 1 {
        AliasesSame(groups, n, m - 1, g, i);
      }
    } else {
      AliasesSame(groups, n - 1, |groups[n - 1]|, g, i);
    }
  }

  /** Sharing never changes what is read or where it goes: every plan's alias has its very contents. */
  lemma SharingPreservesPlans(groups: seq<seq<PlanObject>>, g: nat, i: nat)
    requires Named(groups) && g < |groups| && i < |groups[g]|
    ensures groups[g][i].id in AliasesUpTo(groups, |groups|, 0)
    ensures AliasesUpTo(groups, |groups|, 0)[groups[g][i].id].plan == groups[g][i].plan
  {
    AliasesSame(groups, |groups|, 0, g, i);
  }

  lemma {:induction false} NothingMoreToShare(groups: seq<seq<PlanObject>>, n: nat)
    requires n <= |groups| && forall i, j :: 0 <= i < j < n ==> !SameGroup(groups[j], groups[i])
    ensures UniqueUpTo(groups, n) == groups[..n]
  {
    if n > 0 {
      NothingMoreToShare(groups, n - 1);
      assert groups[..n] == groups[..n - 1] + [groups[n - 1]];
    }
  }

  /** Sharing once is enough: the canonical groups share nothing. */
  lemma SharingIsIdempotent(groups: seq<seq<PlanObject>>)
    ensures var unique := UniqueUpTo(groups, |groups|); UniqueUpTo(unique, |unique|) == unique
  {
    var unique := UniqueUpTo(groups, |groups|);
    forall i, j | 0 <= i < j < |unique| ensures !SameGroup(unique[j], unique[i]) {
      UniqueDiffer(groups, |groups|, i, j);
    }
    NothingMoreToShare(unique, |unique|);
    assert unique[..|unique|] == unique;
  }
}
