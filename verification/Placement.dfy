/**
 * Choosing GPU placements (_select_gpu_placements of
 * src/cuphoton/core/dragon.py): round robin over hosts, then over the chosen GPUs
 * when workers share them.
 */
module Placements {
  import opened Arithmetic

  datatype Placement = Placement(host: string, gpuId: nat)

  datatype Selection = Selected(workers: seq<Placement>) | TooManyWorkers | BadWorkersPerGpu | CouldNotSelect

  // ----- grouping by host -----

  /** The group of a host, or -1. */
  function GroupOf(groups: seq<seq<Placement>>, host: string, from: nat): (k: int)
    requires from <= |groups|
    ensures k == -1 || from <= k < |groups|
    decreases |groups| - from
  {
    if from == |groups| then -1
    else if groups[from] != [] && groups[from][0].host == host then from
    else GroupOf(groups, host, from + 1)
  }

  /** by_host.setdefault(host, []).append(placement). */
  function AddPlacement(groups: seq<seq<Placement>>, p: Placement): seq<seq<Placement>> {
    var k := GroupOf(groups, p.host, 0);
    if k < 0 then groups + [[p]] else groups[k := groups[k] + [p]]
  }

  /** The placements of each host, hosts in order of first appearance. */
  function ByHost(placements: seq<Placement>): seq<seq<Placement>> {
    if placements == [] then []
    else AddPlacement(ByHost(placements[..|placements| - 1]), placements[|placements| - 1])
  }

  /** Placements in the first n groups. */
  function Size(groups: seq<seq<Placement>>, n: nat): nat
    requires n <= |groups|
  {
    if n == 0 then 0 else Size(groups, n - 1) + |groups[n - 1]|
  }

  lemma {:induction false} SizeUpdate(groups: seq<seq<Placement>>, k: nat, g: seq<Placement>, n: nat)
    requires k < |groups| && n <= |groups|
    ensures Size(groups[k := g], n) == Size(groups, n) + if k < n then |g| - |groups[k]| else 0
  {
    if n > 0 {
      SizeUpdate(groups, k, g, n - 1);
    }
  }

  lemma {:induction false} SizeAppend(groups: seq<seq<Placement>>, g: seq<Placement>, n: nat)
    requires n <= |groups|
    ensures Size(groups + [g], n) == Size(groups, n)
  {
    if n > 0 {
      SizeAppend(groups, g, n - 1);
    }
  }

  /** Grouping keeps every placement. */
  lemma {:induction false} GroupedSize(placements: seq<Placement>)
    ensures Size(ByHost(placements), |ByHost(placements)|) == |placements|
  {
    if placements != [] {
      var before, p := ByHost(placements[..|placements| - 1]), placements[|placements| - 1];
      GroupedSize(placements[..|placements| - 1]);
      var k := GroupOf(before, p.host, 0);
      if k < 0 {
        SizeAppend(before, [p], |before|);
      } else {
        SizeUpdate(before, k, before[k] + [p], |before|);
      }
    }
  }

  /** Groups hold the placements of one host each, no placement twice. */
  predicate Grouped(groups: seq<seq<Placement>>) {
    && (forall h :: 0 <= h < |groups| ==> groups[h] != [])
    && (forall h, o :: 0 <= h < |groups| && 0 <= o < |groups[h]| ==> groups[h][o].host == groups[h][0].host)
    && (forall h, g :: 0 <= h < g < |groups| ==> groups[h][0].host != groups[g][0].host)
    && (forall h, o, q :: 0 <= h < |groups| && 0 <= o < q < |groups[h]| ==> groups[h][o] != groups[h][q])
  }

  predicate DistinctPlacements(placements: seq<Placement>) {
    forall i, j :: 0 <= i < j < |placements| ==> placements[i] != placements[j]
  }

  lemma {:induction false} GroupOfHost(groups: seq<seq<Placement>>, host: string, from: nat)
    requires from <= |groups|
    ensures var k := GroupOf(groups, host, from);
            && (k >= 0 ==> groups[k] != [] && groups[k][0].host == host)
            && (k < 0 ==> forall h :: from <= h < |groups| && groups[h] != [] ==> groups[h][0].host != host)
    decreases |groups| - from
  {
    if from < |groups| {
      GroupOfHost(groups, host, from + 1);
    }
  }

  lemma {:induction false} FromPlacements(placements: seq<Placement>, h: nat, o: nat)
    requires h < |ByHost(placements)| && o < |ByHost(placements)[h]|
    ensures ByHost(placements)[h][o] in placements
  {
    var last := |placements| - 1;
    var before, p := ByHost(placements[..last]), placements[last];
    var k := GroupOf(before, p.host, 0);
    if h < |before| && o < |before[h]| {
      FromPlacements(placements[..last], h, o);
      assert ByHost(placements)[h][o] == before[h][o];
    } else {
      assert ByHost(placements)[h][o] == p;
    }
  }

  lemma {:induction false} ByHostGrouped(placements: seq<Placement>)
    requires DistinctPlacements(placements)
    ensures Grouped(ByHost(placements))
  {
    if placements != [] {
      var last := |placements| - 1;
      var before, p := ByHost(placements[..last]), placements[last];
      ByHostGrouped(placements[..last]);
      forall h, o | 0 <= h < |before| && 0 <= o < |before[h]| ensures before[h][o] != p {
        FromPlacements(placements[..last], h, o);
      }
      AddGrouped(before, p);
    }
  }

  lemma AddGrouped(groups: seq<seq<Placement>>, p: Placement)
    requires Grouped(groups) && forall h, o :: 0 <= h < |groups| && 0 <= o < |groups[h]| ==> groups[h][o] != p
    ensures Grouped(AddPlacement(groups, p))
  {
    GroupOfHost(groups, p.host, 0);
    hide GroupOf;
  }

  // ----- round robin -----

  /** Host number and offset in its list. */
  datatype Pick = Pick(h: nat, o: nat)

  /** All picks of offsets below `offset`, then those of `offset` on the first m hosts. */
  function Picks(groups: seq<seq<Placement>>, offset: nat, m: nat): seq<Pick>
    requires m <= |groups|
    decreases offset, m
  {
    if m > 0 then Picks(groups, offset, m - 1) + if offset < |groups[m - 1]| then [Pick(m - 1, offset)] else []
    else if offset > 0 then Picks(groups, offset - 1, |groups|)
    else []
  }

  function PlacementsOf(groups: seq<seq<Placement>>, picks: seq<Pick>): (r: seq<Placement>)
    requires PicksFit(groups, picks)
    ensures |r| == |picks|
  {
    seq(|picks|, i requires 0 <= i < |picks| => groups[picks[i].h][picks[i].o])
  }

  predicate PicksFit(groups: seq<seq<Placement>>, picks: seq<Pick>) {
    forall i :: 0 <= i < |picks| ==> picks[i].h < |groups| && picks[i].o < |groups[picks[i].h]|
  }

  /** (offset, m) comes after the pick. */
  predicate Reached(p: Pick, offset: nat, m: nat) {
    p.o < offset || (p.o == offset && p.h < m)
  }

  lemma {:induction false} PicksShape(groups: seq<seq<Placement>>, offset: nat, m: nat)
    requires m <= |groups|
    ensures PicksFit(groups, Picks(groups, offset, m))
    ensures forall i :: 0 <= i < |Picks(groups, offset, m)| ==> Reached(Picks(groups, offset, m)[i], offset, m)
    ensures forall i, j :: 0 <= i < j < |Picks(groups, offset, m)| ==>
      Picks(groups, offset, m)[i] != Picks(groups, offset, m)[j]
    decreases offset, m
  {
    if m > 0 {
      PicksShape(groups, offset, m - 1);
    } else if offset > 0 {
      PicksShape(groups, offset - 1, |groups|);
    }
  }

  /** How many picks a host has. */
  function HostCount(picks: seq<Pick>, h: nat): nat {
    if picks == [] then 0
    else HostCount(picks[..|picks| - 1], h) + if picks[|picks| - 1].h == h then 1 else 0
  }

  function Least(a: nat, b: nat): nat { if a <= b then a else b }

  lemma HostCountAppend(picks: seq<Pick>, p: Pick, h: nat)
    ensures HostCount(picks + [p], h) == HostCount(picks, h) + if p.h == h then 1 else 0
  {
    assert (picks + [p])[..|picks|] == picks;
  }

  lemma {:induction false} HostShare(groups: seq<seq<Placement>>, offset: nat, m: nat, h: nat)
    requires m <= |groups| && h < |groups|
    ensures HostCount(Picks(groups, offset, m), h) == Least(|groups[h]|, offset + if h < m then 1 else 0)
    decreases offset, m
  {
    if m > 0 {
      HostShare(groups, offset, m - 1, h);
      if offset < |groups[m - 1]| {
        HostCountAppend(Picks(groups, offset, m - 1), Pick(m - 1, offset), h);
      } else {
        assert Picks(groups, offset, m) == Picks(groups, offset, m - 1);
      }
    } else if offset > 0 {
      HostShare(groups, offset - 1, |groups|, h);
    }
  }

  /** No host leads another by more than one pick unless the other is exhausted. */
  lemma HostsBalanced(groups: seq<seq<Placement>>, offset: nat, m: nat, h: nat, g: nat)
    requires m <= |groups| && h < |groups| && g < |groups|
    ensures var picks := Picks(groups, offset, m);
            HostCount(picks, h) <= HostCount(picks, g) + 1 || HostCount(picks, g) == |groups[g]|
  {
    HostShare(groups, offset, m, h);
    HostShare(groups, offset, m, g);
  }

  /** Placements of the first n hosts that (offset, m) has reached. */
  function ReachedSize(groups: seq<seq<Placement>>, offset: nat, m: nat, n: nat): nat
    requires m <= |groups| && n <= |groups|
  {
    if n == 0 then 0
    else ReachedSize(groups, offset, m, n - 1) + Least(|groups[n - 1]|, offset + if n - 1 < m then 1 else 0)
  }

  lemma {:induction false} ReachedStep(groups: seq<seq<Placement>>, offset: nat, m: nat, n: nat)
    requires 0 < m <= |groups| && n <= |groups|
    ensures ReachedSize(groups, offset, m, n)
            == ReachedSize(groups, offset, m - 1, n) + if m - 1 < n && offset < |groups[m - 1]| then 1 else 0
  {
    if n > 0 {
      ReachedStep(groups, offset, m, n - 1);
    }
  }

  lemma {:induction false} ReachedRow(groups: seq<seq<Placement>>, offset: nat, n: nat)
    requires n <= |groups|
    ensures ReachedSize(groups, offset + 1, 0, n) == ReachedSize(groups, offset, |groups|, n)
  {
    if n > 0 {
      ReachedRow(groups, offset, n - 1);
    }
  }

  lemma {:induction false} ReachedNothing(groups: seq<seq<Placement>>, n: nat)
    requires n <= |groups|
    ensures ReachedSize(groups, 0, 0, n) == 0
  {
    if n > 0 {
      ReachedNothing(groups, n - 1);
    }
  }

  lemma {:induction false} PicksCount(groups: seq<seq<Placement>>, offset: nat, m: nat)
    requires m <= |groups|
    ensures |Picks(groups, offset, m)| == ReachedSize(groups, offset, m, |groups|)
    decreases offset, m
  {
    if m > 0 {
      PicksCount(groups, offset, m - 1);
      ReachedStep(groups, offset, m, |groups|);
    } else if offset > 0 {
      PicksCount(groups, offset - 1, |groups|);
      ReachedRow(groups, offset - 1, |groups|);
    } else {
      ReachedNothing(groups, |groups|);
    }
  }

  lemma {:induction false} ReachedAll(groups: seq<seq<Placement>>, offset: nat, n: nat)
    requires n <= |groups| && forall h :: 0 <= h < |groups| ==> |groups[h]| <= offset
    ensures ReachedSize(groups, offset, 0, n) == Size(groups, n)
  {
    if n > 0 {
      ReachedAll(groups, offset, n - 1);
    }
  }

  /** When no host has a placement at an offset, everything has been picked already. */
  lemma NoProgressMeansAll(groups: seq<seq<Placement>>, offset: nat)
    requires forall h :: 0 <= h < |groups| ==> |groups[h]| <= offset
    ensures |Picks(groups, offset, 0)| == Size(groups, |groups|)
  {
    PicksCount(groups, offset, 0);
    ReachedAll(groups, offset, |groups|);
  }

  // ----- the selection -----

  /** One pass over the hosts at an offset; stops when enough are picked. */
  method PickRow(groups: seq<seq<Placement>>, offset: nat, wanted: nat) returns (picks: seq<Pick>, progressed: bool, m: nat)
    requires |Picks(groups, offset, 0)| < wanted
    ensures m <= |groups| && picks == Picks(groups, offset, m) && |picks| <= wanted
    ensures m == |groups| || |picks| == wanted
    ensures progressed <==> |picks| > |Picks(groups, offset, 0)|
    ensures !progressed ==> forall h :: 0 <= h < |groups| ==> |groups[h]| <= offset
  {
    picks, progressed, m := Picks(groups, offset, 0), false, 0;
    while m < |groups|
      invariant m <= |groups| && picks == Picks(groups, offset, m) && |picks| < wanted
      invariant |picks| >= |Picks(groups, offset, 0)|
      invariant progressed <==> |picks| > |Picks(groups, offset, 0)|
      invariant !progressed ==> forall h :: 0 <= h < m ==> |groups[h]| <= offset
    {
      if offset < |groups[m]| {
        picks := picks + [Pick(m, offset)];
        progressed := true;
        m := m + 1;
        if |picks| == wanted {
          return;
        }
      } else {
        m := m + 1;
      }
    }
  }

  /** The first `wanted` picks; there is always enough, so the error after a pass without progress is never reached. */
  method PickUnique(groups: seq<seq<Placement>>, wanted: nat) returns (picks: seq<Pick>, stuck: bool, offset: nat, m: nat)
    requires 0 < wanted <= Size(groups, |groups|)
    ensures !stuck
    ensures m <= |groups| && picks == Picks(groups, offset, m) && |picks| == wanted
  {
    picks, stuck, offset, m := [], false, 0, 0;
    while |picks| < wanted
      invariant |picks| <= wanted
      invariant m <= |groups| && |picks| == wanted ==> picks == Picks(groups, offset, m)
      invariant |picks| < wanted ==> m == 0 && picks == Picks(groups, offset, 0)
      invariant m <= |groups|
      decreases wanted - |picks|
    {
      var progressed;
      ghost var before := |picks|;
      picks, progressed, m := PickRow(groups, offset, wanted);
      if !progressed {
        NoProgressMeansAll(groups, offset);
        assert false;
      }
      if |picks| < wanted {
        offset, m := offset + 1, 0;
      }
    }
  }

  method SelectGpuPlacements(placements: seq<Placement>, workerCount: int, workersPerGpu: int) returns (r: Selection)
    ensures r == BadWorkersPerGpu <==> workersPerGpu <= 0
    ensures r == TooManyWorkers <==>
      workersPerGpu > 0 && (workerCount <= 0 || workerCount > |placements| * workersPerGpu)
    ensures r.Selected? <==> workersPerGpu > 0 && 0 < workerCount <= |placements| * workersPerGpu
    ensures r.Selected? ==> exists offset, m ::
      IsSelection(ByHost(placements), offset, m, Least(workerCount, |placements|), workerCount, r.workers)
  {
    if workersPerGpu <= 0 {
      return BadWorkersPerGpu;
    }
    if workerCount <= 0 || workerCount > |placements| * workersPerGpu {
      return TooManyWorkers;
    }
    var groups := ByHost(placements);
    GroupedSize(placements);
    var unique := Least(workerCount, |placements|);
    assert 0 * workersPerGpu == 0;
    var picks, stuck, offset, m := PickUnique(groups, unique);
    if stuck {
      return CouldNotSelect;
    }
    PicksShape(groups, offset, m);
    var chosen := PlacementsOf(groups, picks);
    var workers := Repeat(chosen, workerCount);
    assert IsSelection(groups, offset, m, unique, workerCount, workers);
    r := Selected(workers);
  }

  /** selected[index % unique_count] for every worker. */
  function Repeat(chosen: seq<Placement>, n: nat): (r: seq<Placement>)
    requires chosen != []
    ensures |r| == n && forall i :: 0 <= i < n ==> r[i] == chosen[i % |chosen|]
  {
    seq(n, i requires 0 <= i < n => chosen[i % |chosen|])
  }

  /** The workers repeat the first `unique` picks in order. */
  ghost predicate IsSelection(groups: seq<seq<Placement>>, offset: nat, m: nat, unique: nat, n: nat, workers: seq<Placement>) {
    && m <= |groups| && unique > 0 && |Picks(groups, offset, m)| == unique && PicksFit(groups, Picks(groups, offset, m))
    && workers == Repeat(PlacementsOf(groups, Picks(groups, offset, m)), n)
  }

  // ----- how often each GPU is used -----

  function UseCount(workers: seq<Placement>, p: Placement): nat {
    multiset(workers)[p]
  }

  /** How many indices below n are j modulo d. */
  function Residues(n: nat, d: nat, j: nat): nat
    requires d > 0
  {
    n / d + if j < n % d then 1 else 0
  }

  lemma ResidueStep(n: nat, d: nat, j: nat)
    requires d > 0 && j < d
    ensures Residues(n + 1, d, j) == Residues(n, d, j) + if n % d == j then 1 else 0
  {
    if n % d == d - 1 {
      DivUnique(n + 1, d, n / d + 1, 0);
    } else {
      DivUnique(n + 1, d, n / d, n % d + 1);
    }
  }

  /** A chosen placement is used once for every worker index that falls on it. */
  lemma {:induction false} RepeatUses(chosen: seq<Placement>, n: nat, j: nat)
    requires j < |chosen| && DistinctPlacements(chosen)
    ensures UseCount(Repeat(chosen, n), chosen[j]) == Residues(n, |chosen|, j)
  {
    if n == 0 {
      DivUnique(0, |chosen|, 0, 0);
      assert Repeat(chosen, 0) == [];
    } else {
      RepeatUses(chosen, n - 1, j);
      ResidueStep(n - 1, |chosen|, j);
      assert Repeat(chosen, n) == Repeat(chosen, n - 1) + [chosen[(n - 1) % |chosen|]];
    }
  }

  lemma PicksAreDistinct(groups: seq<seq<Placement>>, offset: nat, m: nat)
    requires m <= |groups| && Grouped(groups) && PicksFit(groups, Picks(groups, offset, m))
    ensures DistinctPlacements(PlacementsOf(groups, Picks(groups, offset, m)))
  {
    PicksShape(groups, offset, m);
    var picks := Picks(groups, offset, m);
    forall i, j | 0 <= i < j < |picks|
      ensures groups[picks[i].h][picks[i].o] != groups[picks[j].h][picks[j].o]
    {
      DifferentPicks(groups, picks[i], picks[j]);
    }
  }

  lemma DifferentPicks(groups: seq<seq<Placement>>, p: Pick, q: Pick)
    requires Grouped(groups) && p != q
    requires p.h < |groups| && p.o < |groups[p.h]| && q.h < |groups| && q.o < |groups[q.h]|
    ensures groups[p.h][p.o] != groups[q.h][q.o]
  {
  }

  /** Uses differ by at most one, and no GPU hosts more than workers_per_gpu workers. */
  lemma UsesBounded(placements: seq<Placement>, workersPerGpu: nat, offset: nat, m: nat, n: nat, workers: seq<Placement>, j: nat)
    requires DistinctPlacements(placements) && 0 < n <= |placements| * workersPerGpu
    requires IsSelection(ByHost(placements), offset, m, Least(n, |placements|), n, workers)
    requires j < Least(n, |placements|)
    ensures var unique := Least(n, |placements|);
            var p := PlacementsOf(ByHost(placements), Picks(ByHost(placements), offset, m))[j];
            && n / unique <= UseCount(workers, p) <= n / unique + 1
            && 1 <= UseCount(workers, p) <= workersPerGpu
  {
    var unique := Least(n, |placements|);
    ByHostGrouped(placements);
    PicksAreDistinct(ByHost(placements), offset, m);
    RepeatUses(PlacementsOf(ByHost(placements), Picks(ByHost(placements), offset, m)), n, j);
    ShareBound(n, unique, |placements|, workersPerGpu, j);
  }

  lemma ShareBound(n: nat, unique: nat, size: nat, workersPerGpu: nat, j: nat)
    requires 0 < n <= size * workersPerGpu && unique == Least(n, size) > 0 && j < unique
    ensures 1 <= Residues(n, unique, j) <= workersPerGpu
  {
    if unique == n {
      DivUnique(n, n, 1, 0);
    } else {
      DivMonotone(unique, n, unique);
      DivUnique(unique, unique, 1, 0);
      if n / unique >= workersPerGpu {
        MulMonotone(unique, workersPerGpu, n / unique);
        assert n == unique * (n / unique) + n % unique;
        if n / unique > workersPerGpu {
          MulStep(unique, workersPerGpu, n / unique);
        }
      }
    }
  }

  /** A GPU that was not chosen hosts no worker. */
  lemma UnchosenUnused(chosen: seq<Placement>, n: nat, p: Placement)
    requires chosen != [] && p !in chosen
    ensures UseCount(Repeat(chosen, n), p) == 0
  {
    var workers := Repeat(chosen, n);
    forall i | 0 <= i < n ensures workers[i] != p {
      assert workers[i] == chosen[i % |chosen|];
    }
    assert p !in workers;
  }
}
