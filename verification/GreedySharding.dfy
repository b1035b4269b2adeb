/**
 * Byte-balanced sharding (src/cuphoton/core/bulk.py) against its own description:
 * a run that takes the items heaviest first, equal weights by identifier, and gives
 * each to the worker with the least (bytes, items, number) so far.
 */
module GreedySharding {
  import opened Sharding
  import opened Sums

  // ----- code-point order -----

  /** At n the strings first differ, a being the smaller: it ends there, or has the smaller character. */
  predicate SmallerAt(a: string, b: string, n: int) {
    0 <= n <= |a| && n < |b| && a[..n] == b[..n] && (n == |a| || a[n] < b[n])
  }

  /** The order of identifiers is that of the first difference. */
  lemma {:induction false} StringLessExactly(a: string, b: string)
    ensures StringLess(a, b) <==> exists n :: SmallerAt(a, b, n)
  {
    if a == [] || b == [] {
      if b != [] {
        assert SmallerAt(a, b, 0);
      }
    } else {
      StringLessExactly(a[1..], b[1..]);
      if a[0] < b[0] {
        assert SmallerAt(a, b, 0);
      } else if n :| SmallerAt(a[1..], b[1..], n) && a[0] == b[0] {
        assert a[..n + 1] == [a[0]] + a[1..][..n] && b[..n + 1] == [b[0]] + b[1..][..n];
        assert SmallerAt(a, b, n + 1);
      }
      if n :| SmallerAt(a, b, n) && n > 0 {
        assert a[1..][..n - 1] == a[..n][1..] && b[1..][..n - 1] == b[..n][1..];
        assert a[0] == a[..n][0] && b[0] == b[..n][0];
        assert SmallerAt(a[1..], b[1..], n - 1);
      }
    }
  }

  // ----- the description -----

  function Bytes(shard: seq<WorkItem>): nat {
    if shard == [] then 0 else shard[0].weightBytes + Bytes(shard[1..])
  }

  lemma {:induction false} BytesIsLoad(shard: seq<WorkItem>)
    ensures Load(shard) == Bytes(shard)
  {
    if shard != [] {
      BytesIsLoad(shard[1..]);
      assert shard == [shard[0]] + shard[1..];
      SumConcat(Weight, [shard[0]], shard[1..]);
      SumOne(Weight, shard[0]);
    }
  }

  /** Heavier items come first, equal ones in the order of their identifiers. */
  ghost predicate HeaviestFirst(order: seq<WorkItem>) {
    forall i, j :: 0 <= i < j < |order| ==>
      order[i].weightBytes > order[j].weightBytes
      || (order[i].weightBytes == order[j].weightBytes && exists n :: SmallerAt(order[i].itemId, order[j].itemId, n))
  }

  /** Worker k has the fewest bytes; among those the fewest items; among those the least number. */
  predicate IsNext(shards: seq<seq<WorkItem>>, k: int) {
    && 0 <= k < |shards|
    && (forall j :: 0 <= j < |shards| ==> Bytes(shards[k]) <= Bytes(shards[j]))
    && (forall j :: 0 <= j < |shards| && Bytes(shards[j]) == Bytes(shards[k]) ==> |shards[k]| <= |shards[j]|)
    && (forall j :: 0 <= j < k ==> !(Bytes(shards[j]) == Bytes(shards[k]) && |shards[j]| == |shards[k]|))
  }

  /** `history[n]` are the shards after n items of `order`. */
  ghost predicate GreedyRun(order: seq<WorkItem>, history: seq<seq<seq<WorkItem>>>, m: nat) {
    && |history| == |order| + 1 && |history[0]| == m && (forall k :: 0 <= k < m ==> history[0][k] == [])
    && forall n :: 0 <= n < |order| ==> TakesNext(history[n], order[n], history[n + 1])
  }

  ghost predicate TakesNext(before: seq<seq<WorkItem>>, item: WorkItem, after: seq<seq<WorkItem>>) {
    exists k :: IsNext(before, k) && after == before[k := before[k] + [item]]
  }

  // ----- it is what the partition computes -----

  lemma PreferredIsNext(shards: seq<seq<WorkItem>>, k: int)
    requires shards != []
    ensures IsNext(shards, k) <==> k == LightestOf(shards, |shards|)
  {
    var best := LightestOf(shards, |shards|);
    forall j | 0 <= j < |shards| ensures Load(shards[j]) == Bytes(shards[j]) && Preferred(shards, best, j) {
      BytesIsLoad(shards[j]);
    }
    hide Load, Bytes;
    assert 0 <= k < |shards| ==> Preferred(shards, best, k);
  }

  /** The next item goes to the only worker with the least key. */
  lemma PlaceIsNext(shards: seq<seq<WorkItem>>, item: WorkItem, after: seq<seq<WorkItem>>)
    requires shards != []
    ensures TakesNext(shards, item, after) <==> after == Place(shards, item)
  {
    PreferredIsNext(shards, LightestOf(shards, |shards|));
    if k :| IsNext(shards, k) && after == shards[k := shards[k] + [item]] {
      PreferredIsNext(shards, k);
    }
    hide IsNext;
  }

  /** The shards after every prefix. */
  function History(order: seq<WorkItem>, m: nat): (h: seq<seq<seq<WorkItem>>>)
    requires m > 0
    ensures |h| == |order| + 1 && forall n :: 0 <= n < |h| ==> h[n] == Balance(order[..n], m)
  {
    seq(|order| + 1, n requires 0 <= n <= |order| => Balance(order[..n], m))
  }

  lemma BalanceRuns(order: seq<WorkItem>, m: nat)
    requires m > 0
    ensures GreedyRun(order, History(order, m), m) && History(order, m)[|order|] == Balance(order, m)
  {
    var h := History(order, m);
    assert order[..|order|] == order;
    hide TakesNext, Place, LightestOf;
    forall n | 0 <= n < |order| ensures TakesNext(h[n], order[n], h[n + 1]) {
      BalanceStep(order, n, m);
      PlaceIsNext(h[n], order[n], h[n + 1]);
    }
  }

  lemma {:induction false} RunBalances(order: seq<WorkItem>, history: seq<seq<seq<WorkItem>>>, m: nat, n: nat)
    requires m > 0 && GreedyRun(order, history, m) && n <= |order|
    ensures history[n] == Balance(order[..n], m)
  {
    if n == 0 {
      assert history[0] == Balance([], m);
    } else {
      RunBalances(order, history, m, n - 1);
      BalanceStep(order, n - 1, m);
      hide TakesNext, Place, Balance;
      assert TakesNext(history[n - 1], order[n - 1], history[n]);
      PlaceIsNext(history[n - 1], order[n - 1], history[n]);
    }
  }

  lemma HeaviestIsSorted(order: seq<WorkItem>)
    ensures HeaviestFirst(order) <==> Sorted(order)
  {
    forall i, j | 0 <= i < j < |order|
      ensures StringLess(order[i].itemId, order[j].itemId) <==> exists n :: SmallerAt(order[i].itemId, order[j].itemId, n)
    {
      StringLessExactly(order[i].itemId, order[j].itemId);
    }
    hide StringLess, SmallerAt;
  }

  /**
   * The partition is refused for a worker count that is not positive or for repeated
   * identifiers; otherwise its shards are those the greedy run ends with, and there is
   * no other such run.
   */
  lemma PartitionIsGreedy(items: seq<WorkItem>, workers: int, shards: seq<seq<WorkItem>>)
    ensures Partition(items, workers) == Shards(shards) <==>
      && workers > 0 && UniqueIds(items)
      && exists order, history :: multiset(order) == multiset(items) && HeaviestFirst(order)
           && GreedyRun(order, history, workers) && history[|order|] == shards
    ensures Partition(items, workers) == Refused(NonPositiveWorkerCount) <==> workers <= 0
    ensures Partition(items, workers) == Refused(DuplicateItemIds) <==> workers > 0 && !UniqueIds(items)
  {
    if workers > 0 && UniqueIds(items) {
      var order := SortItems(items);
      SortItemsSorted(items);
      HeaviestIsSorted(order);
      BalanceRuns(order, workers);
      forall other, history | multiset(other) == multiset(items) && HeaviestFirst(other) && GreedyRun(other, history, workers)
        ensures history[|other|] == Balance(order, workers)
      {
        HeaviestIsSorted(other);
        SortedUnique(other, order);
        RunBalances(order, history, workers, |order|);
        assert order[..|order|] == order;
      }
      hide GreedyRun, HeaviestFirst, Sorted, Balance, UniqueIds;
    }
  }
}
