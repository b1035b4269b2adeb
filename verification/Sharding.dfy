/**
 * Byte-balanced sharding (src/cuphoton/core/bulk.py): whole items, heaviest
 * first, each to the worker with the least load so far.
 */
module Sharding {
  import opened Sums

  datatype WorkItem = WorkItem(itemId: string, payload: string, weightBytes: nat)

  datatype ShardError = NonPositiveWorkerCount | DuplicateItemIds

  datatype Sharded = Shards(shards: seq<seq<WorkItem>>) | Refused(error: ShardError)

  // ----- ordering of items -----

  /** Code-point order of identifiers. */
  predicate StringLess(a: string, b: string) {
    if b == [] then false
    else if a == [] then true
    else a[0] < b[0] || (a[0] == b[0] && StringLess(a[1..], b[1..]))
  }

  /** Order of the sort key (-weight_bytes, item_id). */
  predicate Before(a: WorkItem, b: WorkItem) {
    a.weightBytes > b.weightBytes || (a.weightBytes == b.weightBytes && StringLess(a.itemId, b.itemId))
  }

  predicate UniqueIds(items: seq<WorkItem>) {
    forall i, j :: 0 <= i < j < |items| ==> items[i].itemId != items[j].itemId
  }

  predicate Sorted(s: seq<WorkItem>) {
    forall i, j :: 0 <= i < j < |s| ==> Before(s[i], s[j])
  }

  lemma {:induction false} StringOrder(a: string, b: string, c: string)
    ensures !StringLess(a, a)
    ensures StringLess(a, b) && StringLess(b, c) ==> StringLess(a, c)
    ensures a == b || StringLess(a, b) || StringLess(b, a)
  {
    if a != [] && b != [] {
      StringOrder(a[1..], b[1..], if c == [] then [] else c[1..]);
      assert a == [a[0]] + a[1..] && b == [b[0]] + b[1..];
    } else if a != [] {
      StringOrder(a[1..], [], []);
    }
  }

  function InsertSorted(x: WorkItem, s: seq<WorkItem>): (r: seq<WorkItem>)
    ensures multiset(r) == multiset(s) + multiset{x}
  {
    if s == [] then [x]
    else if Before(x, s[0]) then [x] + s
    else
      assert s == [s[0]] + s[1..];
      [s[0]] + InsertSorted(x, s[1..])
  }

  function SortItems(items: seq<WorkItem>): (r: seq<WorkItem>)
    ensures multiset(r) == multiset(items)
  {
    if items == [] then []
    else
      assert items == [items[0]] + items[1..];
      InsertSorted(items[0], SortItems(items[1..]))
  }

  lemma {:induction false} InsertKeepsSorted(x: WorkItem, s: seq<WorkItem>)
    requires Sorted(s) && forall y :: y in s ==> y.itemId != x.itemId
    ensures Sorted(InsertSorted(x, s))
  {
    if s != [] {
      StringOrder(x.itemId, s[0].itemId, x.itemId);
      if Before(x, s[0]) {
        forall j | 0 < j < |s| ensures Before(x, s[j]) {
          StringOrder(x.itemId, s[0].itemId, s[j].itemId);
        }
      } else {
        InsertKeepsSorted(x, s[1..]);
        var r := InsertSorted(x, s[1..]);
        forall y | y in r ensures Before(s[0], y) {
          assert y in multiset(r);
          assert y == x || y in s[1..];
        }
      }
    }
  }

  lemma {:induction false} SortItemsSorted(items: seq<WorkItem>)
    requires UniqueIds(items)
    ensures Sorted(SortItems(items))
  {
    if items != [] {
      SortItemsSorted(items[1..]);
      var rest := SortItems(items[1..]);
      forall y | y in rest ensures y.itemId != items[0].itemId {
        assert y in multiset(rest);
        assert y in items[1..];
      }
      InsertKeepsSorted(items[0], rest);
    }
  }

  /** The least element of a sorted sequence comes first. */
  lemma SortedHead(s: seq<WorkItem>, t: seq<WorkItem>)
    requires Sorted(s) && Sorted(t) && multiset(s) == multiset(t) && s != []
    ensures t != [] && s[0] == t[0]
  {
    assert s[0] in multiset(t);
    assert t[0] in multiset(s);
    var i :| 0 <= i < |t| && t[i] == s[0];
    var j :| 0 <= j < |s| && s[j] == t[0];
    if i > 0 && j > 0 {
      StringOrder(s[0].itemId, t[0].itemId, s[0].itemId);
      assert false;
    }
  }

  lemma SortedTail(s: seq<WorkItem>)
    requires Sorted(s) && s != []
    ensures Sorted(s[1..]) && s == [s[0]] + s[1..]
    ensures multiset(s[1..]) == multiset(s) - multiset{s[0]}
  {
    hide Before;
    assert s == [s[0]] + s[1..];
  }

  /** A set of items has one sorted arrangement only. */
  lemma {:induction false} SortedUnique(s: seq<WorkItem>, t: seq<WorkItem>)
    requires Sorted(s) && Sorted(t) && multiset(s) == multiset(t)
    ensures s == t
    decreases |s|
  {
    if s == [] {
      assert |multiset(t)| == 0;
    } else {
      SortedHead(s, t);
      SortedTail(s);
      SortedTail(t);
      SortedUnique(s[1..], t[1..]);
    }
  }

  // ----- greedy assignment -----

  function Weight(item: WorkItem): int {
    item.weightBytes
  }

  function Load(shard: seq<WorkItem>): int {
    Sum(Weight, shard)
  }

  /** Key (weights[k], len(shards[k]), k) is at most that of j. */
  predicate Preferred(shards: seq<seq<WorkItem>>, k: nat, j: nat)
    requires k < |shards| && j < |shards|
  {
    Load(shards[k]) < Load(shards[j])
    || (Load(shards[k]) == Load(shards[j])
        && (|shards[k]| < |shards[j]| || (|shards[k]| == |shards[j]| && k <= j)))
  }

  lemma PreferredChain(shards: seq<seq<WorkItem>>, k: nat, w: nat)
    requires k < w < |shards|
    requires !Preferred(shards, k, w) && forall j :: 0 <= j < w ==> Preferred(shards, k, j)
    ensures forall j :: 0 <= j <= w ==> Preferred(shards, w, j)
  {
    forall j | 0 <= j < w ensures Preferred(shards, w, j) {
      assert Preferred(shards, k, j);
    }
  }

  /** The worker with the least key among the first n. */
  function LightestOf(shards: seq<seq<WorkItem>>, n: nat): (k: nat)
    requires 0 < n <= |shards|
    ensures k < n && forall j :: 0 <= j < n ==> Preferred(shards, k, j)
  {
    if n == 1 then 0
    else
      var k := LightestOf(shards, n - 1);
      if Preferred(shards, k, n - 1) then k
      else
        PreferredChain(shards, k, n - 1);
        n - 1
  }

  function Place(shards: seq<seq<WorkItem>>, item: WorkItem): seq<seq<WorkItem>>
    requires shards != []
  {
    var k := LightestOf(shards, |shards|);
    shards[k := shards[k] + [item]]
  }

  function Balance(sorted: seq<WorkItem>, m: nat): (shards: seq<seq<WorkItem>>)
    requires m > 0
    ensures |shards| == m
  {
    if sorted == [] then seq(m, _ => [])
    else Place(Balance(sorted[..|sorted| - 1], m), sorted[|sorted| - 1])
  }

  lemma BalanceStep(sorted: seq<WorkItem>, n: nat, m: nat)
    requires m > 0 && n < |sorted|
    ensures Balance(sorted[..n + 1], m) == Place(Balance(sorted[..n], m), sorted[n])
  {
    assert sorted[..n + 1][..n] == sorted[..n];
  }

  lemma LoadAppend(shard: seq<WorkItem>, item: WorkItem)
    ensures Load(shard + [item]) == Load(shard) + item.weightBytes
  {
    assert (shard + [item])[..|shard|] == shard;
  }

  /** The result for any input. */
  function Partition(items: seq<WorkItem>, workerCount: int): Sharded {
    if workerCount <= 0 then Refused(NonPositiveWorkerCount)
    else if !UniqueIds(items) then Refused(DuplicateItemIds)
    else Shards(Balance(SortItems(items), workerCount))
  }

  method PartitionByteBalanced(items: seq<WorkItem>, workerCount: int) returns (r: Sharded)
    ensures r == Partition(items, workerCount)
  {
    if workerCount <= 0 {
      return Refused(NonPositiveWorkerCount);
    }
    if !UniqueIds(items) {
      return Refused(DuplicateItemIds);
    }
    hide Load, Balance, Preferred, InsertSorted;
    NothingPlaced(workerCount);
    var shards: seq<seq<WorkItem>> := seq(workerCount, _ => []);
    var weights: seq<int> := seq(workerCount, _ => 0);
    var sorted := SortItems(items);
    for n := 0 to |sorted|
      invariant shards == Balance(sorted[..n], workerCount)
      invariant |weights| == workerCount
      invariant forall k :: 0 <= k < workerCount ==> weights[k] == Load(shards[k])
    {
      var item := sorted[n];
      var workerId := LightestWorker(shards, weights);
      BalanceStep(sorted, n, workerCount);
      LoadAppend(shards[workerId], item);
      shards := shards[workerId := shards[workerId] + [item]];
      weights := weights[workerId := weights[workerId] + item.weightBytes];
    }
    assert sorted[..|sorted|] == sorted;
    r := Shards(shards);
  }

  lemma NothingPlaced(m: nat)
    requires m > 0
    ensures Balance([], m) == seq(m, _ => [])
    ensures forall k :: 0 <= k < m ==> Load(Balance([], m)[k]) == 0
  {
  }

  /** min over the workers with key (weight, shard length, worker). */
  method LightestWorker(shards: seq<seq<WorkItem>>, weights: seq<int>) returns (workerId: nat)
    requires |weights| == |shards| > 0
    requires forall k :: 0 <= k < |shards| ==> weights[k] == Load(shards[k])
    ensures workerId == LightestOf(shards, |shards|)
  {
    hide Load;
    workerId := 0;
    for value := 1 to |shards|
      invariant 0 <= workerId < value
      invariant workerId == LightestOf(shards, value)
    {
      if weights[value] < weights[workerId]
         || (weights[value] == weights[workerId] && |shards[value]| < |shards[workerId]|) {
        workerId := value;
      }
    }
  }

  // ----- structure of the shards -----

  lemma {:induction false} FlattenUpdate(shards: seq<seq<WorkItem>>, k: nat, item: WorkItem)
    requires k < |shards|
    ensures multiset(Flatten(shards[k := shards[k] + [item]])) == multiset(Flatten(shards)) + multiset{item}
  {
    var updated := shards[k := shards[k] + [item]];
    var last := |shards| - 1;
    if k == last {
      assert updated[..last] == shards[..last];
    } else {
      FlattenUpdate(shards[..last], k, item);
      assert updated[..last] == shards[..last][k := shards[k] + [item]];
    }
  }

  /** Every item lands on exactly one worker and nothing else does. */
  lemma {:induction false} BalanceConserves(sorted: seq<WorkItem>, m: nat)
    requires m > 0
    ensures multiset(Flatten(Balance(sorted, m))) == multiset(sorted)
  {
    if sorted == [] {
      FlattenEmpty(m);
    } else {
      var last := |sorted| - 1;
      BalanceConserves(sorted[..last], m);
      var prior := Balance(sorted[..last], m);
      assert Balance(sorted, m) == prior[LightestOf(prior, m) := prior[LightestOf(prior, m)] + [sorted[last]]];
      hide *;
      FlattenUpdate(prior, LightestOf(prior, m), sorted[last]);
      assert sorted == sorted[..last] + [sorted[last]];
    }
  }

  lemma {:induction false} FlattenEmpty(m: nat)
    ensures Flatten<WorkItem>(seq(m, _ => [])) == []
  {
    if m > 0 {
      FlattenEmpty(m - 1);
      var none: seq<seq<WorkItem>> := seq(m, _ => []);
      assert none[..m - 1] == seq(m - 1, _ => []);
    }
  }

  /** The shards are a partition of the items. */
  lemma ShardsPartitionItems(items: seq<WorkItem>, m: int)
    requires Partition(items, m).Shards?
    ensures |Partition(items, m).shards| == m
    ensures multiset(Flatten(Partition(items, m).shards)) == multiset(items)
  {
    BalanceConserves(SortItems(items), m);
  }

  /** Only the set of items matters, not the order they come in. */
  lemma ShardsIgnoreOrder(items: seq<WorkItem>, other: seq<WorkItem>, m: int)
    requires multiset(items) == multiset(other)
    ensures Partition(items, m) == Partition(other, m)
  {
    if UniqueIds(items) {
      UniqueIdsPermute(items, other);
      SortItemsSorted(items);
      SortItemsSorted(other);
      SortedUnique(SortItems(items), SortItems(other));
    } else if UniqueIds(other) {
      UniqueIdsPermute(other, items);
    }
  }

  /** Whether an ID repeats does not depend on the order. */
  lemma UniqueIdsPermute(items: seq<WorkItem>, other: seq<WorkItem>)
    requires multiset(items) == multiset(other) && UniqueIds(items)
    ensures UniqueIds(other)
  {
    forall i, j | 0 <= i < j < |other| ensures other[i].itemId != other[j].itemId {
      assert other[i] in multiset(items) && other[j] in multiset(items);
      if other[i] == other[j] {
        SeenTwice(other, i, j);
        OnceEach(items, other[i]);
      }
    }
  }

  lemma {:induction false} OnceEach(items: seq<WorkItem>, x: WorkItem)
    requires UniqueIds(items)
    ensures multiset(items)[x] <= 1
  {
    if items != [] {
      var last := |items| - 1;
      assert items == items[..last] + [items[last]];
      OnceEach(items[..last], x);
      assert x == items[last] ==> x !in items[..last];
    }
  }

  /** While a worker is still empty, the lowest-numbered empty one is served next. */
  lemma {:induction false} BalanceFillsInOrder(sorted: seq<WorkItem>, m: nat)
    requires m > 0
    ensures forall k :: 0 <= k < m ==> (Balance(sorted, m)[k] == [] <==> k >= |sorted|)
  {
    if sorted != [] {
      var last := |sorted| - 1;
      BalanceFillsInOrder(sorted[..last], m);
      var prior := Balance(sorted[..last], m);
      var k := LightestOf(prior, m);
      if last < m {
        assert Preferred(prior, k, last);
        LoadNonNegative(prior[k]);
        assert k == last;
      }
    }
  }

  lemma LoadNonNegative(shard: seq<WorkItem>)
    ensures Load(shard) >= 0
  {
    SumAbove(Weight, shard, 0);
  }

  /** With at least as many items as workers every worker gets one, weight zero or not. */
  lemma NoShardEmpty(items: seq<WorkItem>, m: int)
    requires Partition(items, m).Shards? && |items| >= m
    ensures forall k :: 0 <= k < m ==> Partition(items, m).shards[k] != []
  {
    assert |multiset(SortItems(items))| == |multiset(items)|;
    BalanceFillsInOrder(SortItems(items), m);
  }

  /** No worker exceeds another by more than its own last item. */
  lemma {:induction false} BalanceGap(sorted: seq<WorkItem>, m: nat, i: nat, j: nat)
    requires m > 0 && i < m && j < m
    ensures var shards := Balance(sorted, m);
            shards[i] == [] || Load(shards[i]) - Weight(shards[i][|shards[i]| - 1]) <= Load(shards[j])
  {
    if sorted != [] {
      var last := |sorted| - 1;
      var item := sorted[last];
      BalanceGap(sorted[..last], m, i, j);
      var prior := Balance(sorted[..last], m);
      var k := LightestOf(prior, m);
      assert (prior[k] + [item])[..|prior[k]|] == prior[k];
      assert Preferred(prior, k, j);
    }
  }

  lemma ShardGap(items: seq<WorkItem>, m: int, i: nat, j: nat)
    requires Partition(items, m).Shards? && i < m && j < m
    requires Partition(items, m).shards[i] != []
    ensures var shards := Partition(items, m).shards;
            Load(shards[i]) <= Load(shards[j]) + Weight(shards[i][|shards[i]| - 1])
  {
    BalanceGap(SortItems(items), m, i, j);
  }
}
