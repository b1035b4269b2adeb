/**
 * The order in which _select_gpu_placements of src/cuphoton/core/dragon.py takes
 * GPUs, said of the list of placements alone: first the first GPU of every host, hosts
 * as they first appear, then every second one, and so on, and all of them once before
 * any of them twice.
 */
module PlacementOrder {
  import opened Placements

  /** How many placements before number i are on its host. */
  function Earlier(placements: seq<Placement>, host: string): nat {
    if placements == [] then 0
    else Earlier(placements[..|placements| - 1], host) + if placements[|placements| - 1].host == host then 1 else 0
  }

  function Turn(placements: seq<Placement>, i: nat): nat
    requires i < |placements|
  {
    Earlier(placements[..i], placements[i].host)
  }

  /** Where the host of number i first appears. */
  function FirstOn(placements: seq<Placement>, i: nat): (f: nat)
    requires i < |placements|
    ensures f <= i && placements[f].host == placements[i].host
    ensures forall j :: 0 <= j < f ==> placements[j].host != placements[i].host
  {
    FirstFrom(placements, placements[i].host, i, 0)
  }

  function FirstFrom(placements: seq<Placement>, host: string, i: nat, from: nat): (f: nat)
    requires from <= i < |placements| && placements[i].host == host
    requires forall j :: 0 <= j < from ==> placements[j].host != host
    ensures from <= f <= i && placements[f].host == host
    ensures forall j :: 0 <= j < f ==> placements[j].host != host
    decreases i - from
  {
    if placements[from].host == host then from else FirstFrom(placements, host, i, from + 1)
  }

  /** Number i is taken before number j. */
  predicate Sooner(placements: seq<Placement>, i: nat, j: nat)
    requires i < |placements| && j < |placements|
  {
    Turn(placements, i) < Turn(placements, j)
    || (Turn(placements, i) == Turn(placements, j) && FirstOn(placements, i) < FirstOn(placements, j))
  }

  // ----- where a grouped placement comes from -----

  /** The number of the placement that became groups[h][o]. */
  function Origin(placements: seq<Placement>, h: nat, o: nat): (i: nat)
    requires h < |ByHost(placements)| && o < |ByHost(placements)[h]|
    ensures i < |placements| && placements[i] == ByHost(placements)[h][o]
  {
    var last := |placements| - 1;
    var before := ByHost(placements[..last]);
    if h < |before| && o < |before[h]| then Origin(placements[..last], h, o) else last
  }

  /** Every group is of one host, and every host has one group. */
  predicate OneHostEach(groups: seq<seq<Placement>>) {
    && (forall h :: 0 <= h < |groups| ==> groups[h] != [])
    && (forall h, o :: 0 <= h < |groups| && 0 <= o < |groups[h]| ==> groups[h][o].host == groups[h][0].host)
    && (forall h, g :: 0 <= h < g < |groups| ==> groups[h][0].host != groups[g][0].host)
  }

  lemma {:induction false} ByHostOneEach(placements: seq<Placement>)
    ensures OneHostEach(ByHost(placements))
  {
    if placements != [] {
      var last := |placements| - 1;
      ByHostOneEach(placements[..last]);
      GroupOfHost(ByHost(placements[..last]), placements[last].host, 0);
      hide GroupOf;
    }
  }

  /** A host's group has as many placements as the list, and no group means none. */
  lemma {:induction false} GroupSize(placements: seq<Placement>, host: string)
    ensures var k := GroupOf(ByHost(placements), host, 0);
            Earlier(placements, host) == if k < 0 then 0 else |ByHost(placements)[k]|
  {
    if placements != [] {
      var last := |placements| - 1;
      var before, p := ByHost(placements[..last]), placements[last];
      GroupSize(placements[..last], host);
      ByHostOneEach(placements[..last]);
      ByHostOneEach(placements);
      GroupOfHost(before, p.host, 0);
      GroupOfHost(before, host, 0);
      GroupOfHost(ByHost(placements), host, 0);
      SameGroup(before, p, host);
    }
  }

  lemma SameGroup(before: seq<seq<Placement>>, p: Placement, host: string)
    requires OneHostEach(before) && OneHostEach(AddPlacement(before, p))
    ensures var k, g := GroupOf(before, host, 0), GroupOf(AddPlacement(before, p), host, 0);
            (if g < 0 then 0 else |AddPlacement(before, p)[g]|)
            == (if k < 0 then 0 else |before[k]|) + if p.host == host then 1 else 0
  {
    GroupOfHost(before, p.host, 0);
    GroupOfHost(before, host, 0);
    GroupOfHost(AddPlacement(before, p), host, 0);
    hide GroupOf;
    var after: seq<seq<Placement>> := AddPlacement(before, p);
    var k, g := GroupOf(before, host, 0), GroupOf(after, host, 0);
    if k >= 0 {
      assert after[k][0].host == host;
      assert g == k;
    } else if p.host == host {
      assert after[|before|][0].host == host;
    }
  }

  /** The o-th placement of a host has o earlier ones on it. */
  lemma {:induction false} OriginTurn(placements: seq<Placement>, h: nat, o: nat)
    requires h < |ByHost(placements)| && o < |ByHost(placements)[h]|
    ensures Turn(placements, Origin(placements, h, o)) == o
  {
    var last := |placements| - 1;
    var before, p := ByHost(placements[..last]), placements[last];
    if h < |before| && o < |before[h]| {
      OriginTurn(placements[..last], h, o);
      var i := Origin(placements[..last], h, o);
      assert placements[..last][..i] == placements[..i];
    } else {
      GroupSize(placements[..last], p.host);
      hide ByHost;
      assert Turn(placements, last) == Earlier(placements[..last], p.host);
    }
  }

  lemma {:induction false} NoneEarlier(placements: seq<Placement>, host: string)
    ensures Earlier(placements, host) == 0 <==> forall j :: 0 <= j < |placements| ==> placements[j].host != host
  {
    if placements != [] {
      NoneEarlier(placements[..|placements| - 1], host);
    }
  }

  /** The first of a host's group is where the host first appears. */
  lemma OriginFirst(placements: seq<Placement>, h: nat, o: nat)
    requires h < |ByHost(placements)| && o < |ByHost(placements)[h]|
    ensures FirstOn(placements, Origin(placements, h, o)) == Origin(placements, h, 0)
  {
    var i, f := Origin(placements, h, o), Origin(placements, h, 0);
    ByHostOneEach(placements);
    OriginTurn(placements, h, 0);
    NoneEarlier(placements[..f], placements[f].host);
    hide ByHost, Origin, FirstFrom;
    assert placements[i].host == placements[f].host;
    assert forall j :: 0 <= j < f ==> placements[..f][j] == placements[j];
  }

  /** Hosts are grouped in the order of their first appearance. */
  lemma {:induction false} OriginsIncrease(placements: seq<Placement>, h: nat, g: nat)
    requires h < g < |ByHost(placements)| && OneHostEach(ByHost(placements))
    ensures Origin(placements, h, 0) < Origin(placements, g, 0)
  {
    var last := |placements| - 1;
    var before := ByHost(placements[..last]);
    ByHostOneEach(placements[..last]);
    if g < |before| {
      OriginsIncrease(placements[..last], h, g);
    }
  }

  lemma {:induction false} EveryOneGrouped(placements: seq<Placement>, i: nat) returns (h: nat, o: nat)
    requires i < |placements|
    ensures h < |ByHost(placements)| && o < |ByHost(placements)[h]| && Origin(placements, h, o) == i
  {
    var last := |placements| - 1;
    var before, p := ByHost(placements[..last]), placements[last];
    if i < last {
      h, o := EveryOneGrouped(placements[..last], i);
    } else {
      var k := GroupOf(before, p.host, 0);
      h, o := if k < 0 then |before| else k, if k < 0 then 0 else |before[k]|;
    }
  }

  // ----- picks in order -----

  /** Rows of offsets first, hosts inside. */
  predicate PickedSooner(p: Pick, q: Pick) {
    p.o < q.o || (p.o == q.o && p.h < q.h)
  }

  lemma {:induction false} PicksSorted(groups: seq<seq<Placement>>, offset: nat, m: nat)
    requires m <= |groups|
    ensures forall i, j :: 0 <= i < j < |Picks(groups, offset, m)| ==>
      PickedSooner(Picks(groups, offset, m)[i], Picks(groups, offset, m)[j])
    decreases offset, m
  {
    if m > 0 {
      PicksSorted(groups, offset, m - 1);
      PicksShape(groups, offset, m - 1);
    } else if offset > 0 {
      PicksSorted(groups, offset - 1, |groups|);
    }
  }

  /** Whatever (offset, m) has reached is picked. */
  lemma {:induction false} PicksComplete(groups: seq<seq<Placement>>, offset: nat, m: nat, p: Pick)
    requires m <= |groups| && p.h < |groups| && p.o < |groups[p.h]| && Reached(p, offset, m)
    ensures p in Picks(groups, offset, m)
    decreases offset, m
  {
    if m > 0 {
      if p == Pick(m - 1, offset) {
        assert Picks(groups, offset, m) == Picks(groups, offset, m - 1) + [p];
      } else {
        PicksComplete(groups, offset, m - 1, p);
      }
    } else if offset > 0 {
      PicksComplete(groups, offset - 1, |groups|, p);
    }
  }

  lemma SoonerByPick(placements: seq<Placement>, p: Pick, q: Pick)
    requires p.h < |ByHost(placements)| && p.o < |ByHost(placements)[p.h]|
    requires q.h < |ByHost(placements)| && q.o < |ByHost(placements)[q.h]| && PickedSooner(p, q)
    ensures Sooner(placements, Origin(placements, p.h, p.o), Origin(placements, q.h, q.o))
  {
    OriginTurn(placements, p.h, p.o);
    OriginTurn(placements, q.h, q.o);
    if p.o == q.o {
      ByHostOneEach(placements);
      OriginFirst(placements, p.h, p.o);
      OriginFirst(placements, q.h, q.o);
      OriginsIncrease(placements, p.h, q.h);
    }
    hide ByHost, Origin, Turn, FirstOn;
  }

  // ----- the selection -----

  /** `chosen` are the first of all placements in the order they are taken. */
  predicate TakenInOrder(placements: seq<Placement>, chosen: seq<nat>) {
    && (forall a :: 0 <= a < |chosen| ==> chosen[a] < |placements|)
    && (forall a, b :: 0 <= a < b < |chosen| ==> Sooner(placements, chosen[a], chosen[b]))
    && (forall i, a :: 0 <= i < |placements| && 0 <= a < |chosen| && i !in chosen ==> Sooner(placements, chosen[a], i))
  }

  function Origins(placements: seq<Placement>, picks: seq<Pick>): (r: seq<nat>)
    requires PicksFit(ByHost(placements), picks)
    ensures |r| == |picks| && forall a :: 0 <= a < |r| ==> r[a] == Origin(placements, picks[a].h, picks[a].o)
  {
    seq(|picks|, a requires 0 <= a < |picks| => Origin(placements, picks[a].h, picks[a].o))
  }

  lemma OriginsInOrder(placements: seq<Placement>, offset: nat, m: nat)
    requires m <= |ByHost(placements)| && PicksFit(ByHost(placements), Picks(ByHost(placements), offset, m))
    ensures TakenInOrder(placements, Origins(placements, Picks(ByHost(placements), offset, m)))
  {
    var groups := ByHost(placements);
    var picks := Picks(groups, offset, m);
    var chosen := Origins(placements, picks);
    PicksSorted(groups, offset, m);
    hide ByHost, Origin, Sooner, Picks;
    forall a, b | 0 <= a < b < |chosen| ensures Sooner(placements, chosen[a], chosen[b]) {
      SoonerByPick(placements, picks[a], picks[b]);
    }
    forall i, a | 0 <= i < |placements| && 0 <= a < |chosen| && i !in chosen ensures Sooner(placements, chosen[a], i) {
      LeftForLater(placements, offset, m, i, a);
    }
  }

  lemma LeftForLater(placements: seq<Placement>, offset: nat, m: nat, i: nat, a: nat)
    requires m <= |ByHost(placements)| && PicksFit(ByHost(placements), Picks(ByHost(placements), offset, m))
    requires i < |placements| && a < |Picks(ByHost(placements), offset, m)|
    requires i !in Origins(placements, Picks(ByHost(placements), offset, m))
    ensures Origins(placements, Picks(ByHost(placements), offset, m))[a] < |placements|
    ensures Sooner(placements, Origins(placements, Picks(ByHost(placements), offset, m))[a], i)
  {
    var groups := ByHost(placements);
    var picks := Picks(groups, offset, m);
    var h, o := EveryOneGrouped(placements, i);
    PicksShape(groups, offset, m);
    hide ByHost, Origin, Sooner, Picks;
    if Reached(Pick(h, o), offset, m) {
      PicksComplete(groups, offset, m, Pick(h, o));
      assert false;
    }
    assert Reached(picks[a], offset, m);
    SoonerByPick(placements, picks[a], Pick(h, o));
  }

  /**
   * The workers of a selection go round the first placements in that order, as many
   * different ones as there are workers or placements.
   */
  lemma SelectionInOrder(placements: seq<Placement>, offset: nat, m: nat, unique: nat, n: nat, workers: seq<Placement>)
    returns (chosen: seq<nat>)
    requires IsSelection(ByHost(placements), offset, m, unique, n, workers)
    ensures |chosen| == unique > 0 && TakenInOrder(placements, chosen)
    ensures |workers| == n && forall w :: 0 <= w < n ==> workers[w] == placements[chosen[w % unique]]
  {
    chosen := Origins(placements, Picks(ByHost(placements), offset, m));
    OriginsInOrder(placements, offset, m);
    hide ByHost, Origin, Sooner, Picks;
  }
}
