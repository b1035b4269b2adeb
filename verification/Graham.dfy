/**
 * How good byte-balanced sharding is: Graham's bound for scheduling the
 * longest job first, against every possible assignment of the same items.
 */
module Graham {
  import opened Arithmetic
  import opened Sums
  import opened Sharding

  /** The largest load of any worker. */
  function MaxLoad(shards: seq<seq<WorkItem>>): (most: int)
    requires shards != []
    ensures forall k :: 0 <= k < |shards| ==> Load(shards[k]) <= most
    ensures exists k :: 0 <= k < |shards| && Load(shards[k]) == most
  {
    var last := |shards| - 1;
    if last == 0 then Load(shards[0])
    else
      var rest := MaxLoad(shards[..last]);
      assert exists k :: 0 <= k < last && Load(shards[..last][k]) == rest;
      if Load(shards[last]) > rest then Load(shards[last]) else rest
  }

  lemma MaxLoadAll(shards: seq<seq<WorkItem>>)
    requires shards != []
    ensures forall s :: s in shards ==> Load(s) <= MaxLoad(shards)
  {
    forall s | s in shards ensures Load(s) <= MaxLoad(shards) {
      var k :| 0 <= k < |shards| && shards[k] == s;
    }
  }

  /** Any way of giving the items to m workers. */
  ghost predicate IsAssignment(other: seq<seq<WorkItem>>, items: seq<WorkItem>, m: nat) {
    |other| == m && multiset(Flatten(other)) == multiset(items)
  }

  lemma TotalLoad(shards: seq<seq<WorkItem>>)
    ensures Sum(Load, shards) == Sum(Weight, Flatten(shards))
  {
    SumFlatten(Weight, shards);
    SumExtensional(Load, (s: seq<WorkItem>) => Sum(Weight, s), shards);
  }

  lemma {:induction false} FlattenMember(shards: seq<seq<WorkItem>>, x: WorkItem) returns (k: nat)
    requires x in Flatten(shards)
    ensures k < |shards| && x in shards[k]
  {
    var last := |shards| - 1;
    if x in shards[last] {
      k := last;
    } else {
      k := FlattenMember(shards[..last], x);
    }
  }

  lemma {:induction false} LoadAtLeast(shard: seq<WorkItem>, x: WorkItem)
    requires x in shard
    ensures Load(shard) >= x.weightBytes
  {
    var last := |shard| - 1;
    LoadNonNegative(shard[..last]);
    if shard[last] != x {
      LoadAtLeast(shard[..last], x);
    }
  }

  // ----- the list-scheduling half -----

  /** The least loaded worker holds at most its fair share. */
  lemma LightestShare(sorted: seq<WorkItem>, m: nat)
    requires m > 0
    ensures var shards := Balance(sorted, m);
            m * Load(shards[LightestOf(shards, m)]) <= Sum(Weight, sorted)
  {
    var shards := Balance(sorted, m);
    var k := LightestOf(shards, m);
    BalanceConserves(sorted, m);
    SumPermutation(Weight, Flatten(shards), sorted);
    TotalLoad(shards);
    forall s | s in shards ensures Load(s) >= Load(shards[k]) {
      var j :| 0 <= j < m && shards[j] == s;
      assert Preferred(shards, k, j);
    }
    SumAbove(Load, shards, Load(shards[k]));
  }

  /** No assignment beats the average. */
  lemma AverageBound(other: seq<seq<WorkItem>>, items: seq<WorkItem>, m: nat)
    requires m > 0 && IsAssignment(other, items, m)
    ensures Sum(Weight, items) <= m * MaxLoad(other)
  {
    SumPermutation(Weight, Flatten(other), items);
    TotalLoad(other);
    MaxLoadAll(other);
    SumBelow(Load, other, MaxLoad(other));
  }

  // ----- the counting half -----

  /** What an item costs a worker: two when it leaves no room for another, one otherwise. */
  function Charge(early: seq<WorkItem>, big: int): WorkItem -> int {
    (x: WorkItem) => if x !in early then 0 else if x.weightBytes >= big then 2 else 1
  }

  lemma {:induction false} ChargeNeedsRoom(bin: seq<WorkItem>, early: seq<WorkItem>, least: nat, big: int)
    requires forall x :: x in early ==> x.weightBytes >= least
    ensures var charge := Sum(Charge(early, big), bin);
            && charge >= 0 && Load(bin) >= 0
            && (charge >= 1 ==> Load(bin) >= least)
            && (charge >= 2 ==> Load(bin) >= 2 * least || Load(bin) >= big)
            && (charge >= 3 ==> Load(bin) >= 3 * least || Load(bin) >= big + least)
  {
    if bin != [] {
      ChargeNeedsRoom(bin[..|bin| - 1], early, least, big);
    }
  }

  lemma {:induction false} FullBinCharge(bin: seq<WorkItem>, early: seq<WorkItem>, big: int)
    requires forall x :: x in bin ==> x in early
    requires Load(bin) >= big >= 1
    ensures Sum(Charge(early, big), bin) >= 2
  {
    var charge := Charge(early, big);
    assert bin != [];
    SumAbove(charge, bin, 1);
    if |bin| == 1 {
      assert bin[..0] == [] && bin[0] in bin;
      assert Load(bin) == Sum(Weight, bin[..0]) + Weight(bin[0]);
      assert Sum(charge, bin) == Sum(charge, bin[..0]) + charge(bin[0]);
    } else {
      assert Sum(charge, bin) >= |bin|;
    }
  }

  lemma BinChargeUpper(bin: seq<WorkItem>, early: seq<WorkItem>, least: nat, t: int)
    requires forall x :: x in early ==> x.weightBytes >= least
    requires 3 * least > t && Load(bin) <= t
    ensures Sum(Charge(early, t - least + 1), bin) <= 2
  {
    ChargeNeedsRoom(bin, early, least, t - least + 1);
  }

  /** Two per worker is all an assignment can hold when three items never fit. */
  lemma ChargeUpper(other: seq<seq<WorkItem>>, early: seq<WorkItem>, least: nat, t: int)
    requires forall x :: x in early ==> x.weightBytes >= least
    requires 3 * least > t
    requires other != [] && MaxLoad(other) <= t
    ensures Sum(Charge(early, t - least + 1), Flatten(other)) <= 2 * |other|
  {
    MaxLoadAll(other);
    hide MaxLoad, Flatten, Sum, Charge;
    var charge := Charge(early, t - least + 1);
    var binCharge := (s: seq<WorkItem>) => Sum(charge, s);
    SumFlatten(charge, other);
    forall s | s in other ensures binCharge(s) <= 2 {
      BinChargeUpper(s, early, least, t);
    }
    SumBelow(binCharge, other, 2);
  }

  /** A greedy state whose workers are all nearly full has used two per worker. */
  lemma ChargeLower(shards: seq<seq<WorkItem>>, early: seq<WorkItem>, big: int)
    requires forall k :: 0 <= k < |shards| ==> Load(shards[k]) >= big >= 1
    requires forall k, x :: 0 <= k < |shards| && x in shards[k] ==> x in early
    ensures Sum(Charge(early, big), Flatten(shards)) >= 2 * |shards|
  {
    var charge := Charge(early, big);
    var binCharge := (s: seq<WorkItem>) => Sum(charge, s);
    SumFlatten(charge, shards);
    forall s | s in shards ensures binCharge(s) >= 2 {
      var k :| 0 <= k < |shards| && shards[k] == s;
      FullBinCharge(s, early, big);
    }
    SumAbove(binCharge, shards, 2);
  }

  lemma {:induction false} FlattenContains(shards: seq<seq<WorkItem>>, k: nat, x: WorkItem)
    requires k < |shards| && x in shards[k]
    ensures x in Flatten(shards)
  {
    var last := |shards| - 1;
    if k < last {
      FlattenContains(shards[..last], k, x);
    }
  }

  /** Placed items come from the items handled so far. */
  lemma PlacedItems(sorted: seq<WorkItem>, m: nat)
    requires m > 0
    ensures forall k, x :: 0 <= k < m && x in Balance(sorted, m)[k] ==> x in sorted
  {
    BalanceConserves(sorted, m);
    forall k, x | 0 <= k < m && x in Balance(sorted, m)[k] ensures x in sorted {
      FlattenContains(Balance(sorted, m), k, x);
      assert x in multiset(Flatten(Balance(sorted, m)));
    }
  }

  lemma {:induction false} ChargeNonNegative(s: seq<WorkItem>, early: seq<WorkItem>, big: int)
    ensures Sum(Charge(early, big), s) >= 0
  {
    SumAbove(Charge(early, big), s, 0);
  }

  /** If even the lightest worker is nearly full, the placed items already cost two per worker. */
  lemma GreedyCharge(sorted: seq<WorkItem>, n: nat, m: nat, big: int)
    requires m > 0 && n < |sorted|
    requires var prior := Balance(sorted[..n], m); Load(prior[LightestOf(prior, m)]) >= big >= 1
    ensures Sum(Charge(sorted[..n + 1], big), Flatten(Balance(sorted[..n], m))) >= 2 * m
  {
    var early := sorted[..n + 1];
    var prior := Balance(sorted[..n], m);
    var k := LightestOf(prior, m);
    forall j | 0 <= j < m ensures Load(prior[j]) >= big {
      assert Preferred(prior, k, j);
    }
    PlacedItems(sorted[..n], m);
    forall j, x | 0 <= j < m && x in prior[j] ensures x in early {
      assert x in sorted[..n];
      assert sorted[..n] == early[..n];
    }
    ChargeLower(prior, early, big);
  }

  /**
   * When the item being placed weighs more than a third of what some assignment
   * achieves, the greedy choice stays within what that assignment achieves.
   */
  lemma LargeItemOptimal(sorted: seq<WorkItem>, n: nat, m: nat, other: seq<seq<WorkItem>>)
    requires m > 0 && n < |sorted| && Sorted(sorted) && IsAssignment(other, sorted, m)
    requires 3 * sorted[n].weightBytes > MaxLoad(other)
    ensures PlacedLoad(sorted, n, m) <= MaxLoad(other)
  {
    hide *;
    if PlacedLoad(sorted, n, m) > MaxLoad(other) {
      var big := MaxLoad(other) - sorted[n].weightBytes + 1;
      EarlyAtLeast(sorted, n);
      ItemFits(other, sorted, m, sorted[n]);
      AssignmentSize(other, sorted, m);
      PlacedFull(sorted, n, m, big);
      ChargeUpper(other, sorted[..n + 1], sorted[n].weightBytes, MaxLoad(other));
      ChargeSplit(sorted, n, m, other, big);
    }
  }

  lemma AssignmentSize(other: seq<seq<WorkItem>>, items: seq<WorkItem>, m: nat)
    requires IsAssignment(other, items, m)
    ensures |other| == m
  {
  }

  /** A placement that reaches too far found even the lightest worker nearly full. */
  lemma PlacedFull(sorted: seq<WorkItem>, n: nat, m: nat, big: int)
    requires m > 0 && n < |sorted| && PlacedLoad(sorted, n, m) >= big + sorted[n].weightBytes && big >= 1
    ensures Sum(Charge(sorted[..n + 1], big), Flatten(Balance(sorted[..n], m))) >= 2 * m
  {
    hide Balance, Load, Sum, Charge, Flatten, LightestOf;
    GreedyCharge(sorted, n, m, big);
  }

  lemma EarlyAtLeast(sorted: seq<WorkItem>, n: nat)
    requires n < |sorted| && Sorted(sorted)
    ensures forall x :: x in sorted[..n + 1] ==> x.weightBytes >= sorted[n].weightBytes
  {
    forall x | x in sorted[..n + 1] ensures x.weightBytes >= sorted[n].weightBytes {
      var i :| 0 <= i <= n && sorted[i] == x;
      assert i < n ==> Before(sorted[i], sorted[n]);
    }
  }

  lemma ItemFits(other: seq<seq<WorkItem>>, items: seq<WorkItem>, m: nat, x: WorkItem)
    requires m > 0 && IsAssignment(other, items, m) && x in items
    ensures x.weightBytes <= MaxLoad(other)
  {
    assert x in multiset(items);
    assert x in multiset(Flatten(other));
    var j := FlattenMember(other, x);
    LoadAtLeast(other[j], x);
  }

  /** The charge of an assignment covers the greedy prefix and the next item. */
  lemma ChargeSplit(sorted: seq<WorkItem>, n: nat, m: nat, other: seq<seq<WorkItem>>, big: int)
    requires m > 0 && n < |sorted| && IsAssignment(other, sorted, m)
    ensures var charge := Charge(sorted[..n + 1], big);
            Sum(charge, Flatten(other)) >= Sum(charge, Flatten(Balance(sorted[..n], m))) + 1
  {
    assert multiset(Flatten(other)) == multiset(sorted);
    hide Balance, IsAssignment, Flatten, Sum;
    var charge := Charge(sorted[..n + 1], big);
    BalanceConserves(sorted[..n], m);
    SumPermutation(charge, Flatten(other), sorted);
    SumPermutation(charge, Flatten(Balance(sorted[..n], m)), sorted[..n]);
    SplitAt(sorted, n);
    ChargeOfNext(sorted[..n], sorted[n], sorted[n + 1..], big);
  }

  lemma ChargeOfNext(front: seq<WorkItem>, item: WorkItem, tail: seq<WorkItem>, big: int)
    ensures var charge := Charge(front + [item], big);
            Sum(charge, front + [item] + tail) >= Sum(charge, front) + 1
  {
    hide Sum;
    var early := front + [item];
    var charge := Charge(early, big);
    SumConcat(charge, early, tail);
    SumConcat(charge, front, [item]);
    SumOne(charge, item);
    ChargeNonNegative(tail, early, big);
    assert item in early;
  }

  lemma SplitAt(sorted: seq<WorkItem>, n: nat)
    requires n < |sorted|
    ensures sorted[..n + 1] == sorted[..n] + [sorted[n]]
    ensures sorted == sorted[..n] + [sorted[n]] + sorted[n + 1..]
  {
  }

  // ----- the bound -----

  /** A load at most 4/3 - 1/(3m) times t. */
  predicate WithinRatio(m: nat, load: int, t: int) {
    3 * m * load <= (4 * m - 1) * t
  }

  lemma SmallItemArithmetic(m: nat, share: int, w: nat, total: int, t: int)
    requires m > 0 && m * share + w <= total <= m * t && 3 * w <= t
    ensures WithinRatio(m, share + w, t)
  {
    var a, b := m * share, m * t;
    assert 3 * m * (share + w) == 3 * a + 3 * (m * w);
    MulMonotone(m - 1, 3 * w, t);
    assert (m - 1) * (3 * w) == 3 * (m * w) - 3 * w;
    assert (m - 1) * t == b - t;
    assert (4 * m - 1) * t == 4 * b - t;
  }

  lemma PrefixWeight(sorted: seq<WorkItem>, n: nat)
    requires n < |sorted|
    ensures Sum(Weight, sorted[..n]) + sorted[n].weightBytes <= Sum(Weight, sorted)
  {
    assert sorted == sorted[..n + 1] + sorted[n + 1..];
    SumConcat(Weight, sorted[..n + 1], sorted[n + 1..]);
    LoadNonNegative(sorted[n + 1..]);
    assert sorted[..n + 1][..n] == sorted[..n];
  }

  /** The list bound: a light item on the least loaded worker. */
  lemma SmallPlacement(sorted: seq<WorkItem>, n: nat, m: nat, other: seq<seq<WorkItem>>)
    requires m > 0 && n < |sorted| && IsAssignment(other, sorted, m)
    requires 3 * sorted[n].weightBytes <= MaxLoad(other)
    ensures WithinRatio(m, PlacedLoad(sorted, n, m), MaxLoad(other))
  {
    assert |other| == m;
    hide Balance, Load, Sum, IsAssignment, MaxLoad, LightestOf, WithinRatio;
    var prior := Balance(sorted[..n], m);
    LightestShare(sorted[..n], m);
    AverageBound(other, sorted, m);
    PrefixWeight(sorted, n);
    SmallItemArithmetic(m, Load(prior[LightestOf(prior, m)]), sorted[n].weightBytes, Sum(Weight, sorted), MaxLoad(other));
  }

  /** The load an item produces where it is placed stays within the bound. */
  lemma PlacementBound(sorted: seq<WorkItem>, n: nat, m: nat, other: seq<seq<WorkItem>>)
    requires m > 0 && n < |sorted| && Sorted(sorted) && IsAssignment(other, sorted, m)
    ensures WithinRatio(m, PlacedLoad(sorted, n, m), MaxLoad(other))
  {
    assert |other| == m;
    hide Balance, Load, Sum, IsAssignment, MaxLoad, PlacedLoad, LightestOf, Sorted, WithinRatio;
    if 3 * sorted[n].weightBytes <= MaxLoad(other) {
      SmallPlacement(sorted, n, m, other);
    } else {
      LargeItemOptimal(sorted, n, m, other);
      PlacedNonNegative(sorted, n, m);
      ScaleArithmetic(m, PlacedLoad(sorted, n, m), MaxLoad(other));
    }
  }

  lemma PlacedNonNegative(sorted: seq<WorkItem>, n: nat, m: nat)
    requires m > 0 && n < |sorted|
    ensures PlacedLoad(sorted, n, m) >= 0
  {
    var prior := Balance(sorted[..n], m);
    LoadNonNegative(prior[LightestOf(prior, m)]);
  }

  lemma ScaleArithmetic(m: nat, load: int, t: int)
    requires m > 0 && 0 <= load <= t
    ensures WithinRatio(m, load, t)
  {
    MulMonotone(3 * m, load, t);
    assert (4 * m - 1) * t == 3 * m * t + (m - 1) * t;
  }

  /** What the greedy choice makes of the lightest worker when it places item n. */
  function PlacedLoad(sorted: seq<WorkItem>, n: nat, m: nat): int
    requires m > 0 && n < |sorted|
  {
    var prior := Balance(sorted[..n], m);
    Load(prior[LightestOf(prior, m)]) + sorted[n].weightBytes
  }

  lemma LoadStep(sorted: seq<WorkItem>, n: nat, m: nat, k: nat)
    requires m > 0 && n < |sorted| && k < m
    ensures var before, after := Load(Balance(sorted[..n], m)[k]), Load(Balance(sorted[..n + 1], m)[k]);
            after == before || after == PlacedLoad(sorted, n, m)
  {
    hide Balance, Load, LightestOf;
    BalanceStep(sorted, n, m);
    LoadAppend(Balance(sorted[..n], m)[k], sorted[n]);
  }

  /** Every final load is zero or the load produced when some item was placed. */
  lemma {:induction false} LoadsArePlaced(sorted: seq<WorkItem>, n: nat, m: nat, k: nat)
    requires m > 0 && n <= |sorted| && k < m
    ensures var load := Load(Balance(sorted[..n], m)[k]);
            load == 0 || exists i :: 0 <= i < n && load == PlacedLoad(sorted, i, m)
  {
    hide Balance, Load, PlacedLoad;
    if n == 0 {
      NothingPlaced(m);
      assert sorted[..0] == [];
    } else {
      LoadsArePlaced(sorted, n - 1, m, k);
      LoadStep(sorted, n - 1, m, k);
    }
  }

  /**
   * Graham's bound. For m workers the heaviest shard is at most 4/3 - 1/(3m)
   * times the heaviest shard of any assignment of the same items whatever.
   */
  lemma GrahamBound(items: seq<WorkItem>, m: int, other: seq<seq<WorkItem>>)
    requires Partition(items, m).Shards? && IsAssignment(other, items, m)
    ensures 3 * m * MaxLoad(Partition(items, m).shards) <= (4 * m - 1) * MaxLoad(other)
  {
    var sorted := SortItems(items);
    var shards := Balance(sorted, m);
    SortItemsSorted(items);
    assert |other| == m && IsAssignment(other, sorted, m);
    hide Balance, Load, Sum, IsAssignment, MaxLoad, PlacedLoad, Sorted, WithinRatio;
    var k :| 0 <= k < m && Load(shards[k]) == MaxLoad(shards);
    assert sorted[..|sorted|] == sorted;
    LoadsArePlaced(sorted, |sorted|, m, k);
    LoadNonNegative(other[0]);
    if Load(shards[k]) == 0 {
      ScaleArithmetic(m, 0, MaxLoad(other));
    } else {
      var i :| 0 <= i < |sorted| && Load(shards[k]) == PlacedLoad(sorted, i, m);
      PlacementBound(sorted, i, m, other);
    }
    RatioMeaning(m, MaxLoad(shards), MaxLoad(other));
  }

  lemma RatioMeaning(m: nat, load: int, t: int)
    requires WithinRatio(m, load, t)
    ensures 3 * m * load <= (4 * m - 1) * t
  {
  }

  lemma ItemOfSorted(items: seq<WorkItem>, i: nat)
    requires i < |SortItems(items)|
    ensures SortItems(items)[i] in items
  {
    assert SortItems(items)[i] in multiset(SortItems(items));
  }

  /** With every item heavier than a third of some assignment's maximum, the result is optimal. */
  lemma {:induction false} LargeItemsOptimal(items: seq<WorkItem>, m: int, other: seq<seq<WorkItem>>)
    requires Partition(items, m).Shards? && IsAssignment(other, items, m)
    requires forall x :: x in items ==> 3 * x.weightBytes > MaxLoad(other)
    ensures MaxLoad(Partition(items, m).shards) <= MaxLoad(other)
  {
    var sorted := SortItems(items);
    var shards := Balance(sorted, m);
    SortItemsSorted(items);
    assert |other| == m && IsAssignment(other, sorted, m);
    hide Balance, Load, Sum, IsAssignment, MaxLoad, PlacedLoad, Sorted;
    var k :| 0 <= k < m && Load(shards[k]) == MaxLoad(shards);
    assert sorted[..|sorted|] == sorted;
    LoadsArePlaced(sorted, |sorted|, m, k);
    LoadNonNegative(other[0]);
    if Load(shards[k]) != 0 {
      var i :| 0 <= i < |sorted| && Load(shards[k]) == PlacedLoad(sorted, i, m);
      ItemOfSorted(items, i);
      LargeItemOptimal(sorted, i, m, other);
    }
  }
}
