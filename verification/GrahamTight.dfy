/**
 * Graham's bound is reached for every number of workers: 2m + 1 items on which
 * byte-balanced sharding (src/cuphoton/core/bulk.py) is exactly 4/3 - 1/(3m) times
 * the optimum.
 */
module GrahamTight {
  import opened Sums
  import opened Sharding
  import opened Graham

  /** Item i of 2m + 1: weights 2m - 1, 2m - 1, 2m - 2, ..., m + 1, m, m and one more m. */
  function HeavyWeight(m: nat, i: nat): nat
    requires 0 < m && i <= 2 * m
  {
    if i < 2 * m then 2 * m - 1 - i / 2 else m
  }

  predicate Ascending(ids: seq<string>) {
    forall i, j :: 0 <= i < j < |ids| ==> StringLess(ids[i], ids[j])
  }

  /** The items, with any identifiers in ascending order. */
  function Items(m: nat, ids: seq<string>): (items: seq<WorkItem>)
    requires 0 < m && |ids| == 2 * m + 1
    ensures |items| == 2 * m + 1
    ensures forall i :: 0 <= i < |items| ==> items[i] == WorkItem(ids[i], "", HeavyWeight(m, i))
  {
    seq(2 * m + 1, i requires 0 <= i < 2 * m + 1 => WorkItem(ids[i], "", HeavyWeight(m, i)))
  }

  lemma ItemsSorted(m: nat, ids: seq<string>)
    requires 0 < m && |ids| == 2 * m + 1 && Ascending(ids)
    ensures SortItems(Items(m, ids)) == Items(m, ids) && UniqueIds(Items(m, ids))
  {
    var items := Items(m, ids);
    forall i, j | 0 <= i < j < |items| ensures Before(items[i], items[j]) && items[i].itemId != items[j].itemId {
      assert StringLess(ids[i], ids[j]);
      StringOrder(ids[i], ids[j], ids[j]);
      assert HeavyWeight(m, i) >= HeavyWeight(m, j);
    }
    assert Sorted(items) && UniqueIds(items);
    hide *;
    SortItemsSorted(items);
    SortedUnique(items, SortItems(items));
  }

  // ----- what the greedy choice does -----

  /** Worker k gets its second item as number Second(m, k) of the second round. */
  function Second(m: nat, k: nat): int
    requires k < m
  {
    var order := m - 2 - 2 * (k / 2) + k % 2;
    if order < 0 then 0 else order
  }

  /** Which worker that is for item number q of the second round. */
  function Receiver(m: nat, q: nat): (k: nat)
    requires q < m
    ensures k < m && Second(m, k) == q
  {
    if m % 2 == 0 then 2 * (m / 2 - 1 - q / 2) + q % 2
    else if q == 0 then m - 1
    else m - 1 - 2 * ((q + 1) / 2) + (q + 1) % 2
  }

  /** Load of worker k once i of the first 2m items are placed. */
  function LoadAt(m: nat, i: nat, k: nat): int
    requires k < m && i <= 2 * m
  {
    if i <= m then (if k < i then 2 * m - 1 - k / 2 else 0)
    else if Second(m, k) < i - m then 3 * m - 1
    else 2 * m - 1 - k / 2
  }

  function LengthAt(m: nat, i: nat, k: nat): nat
    requires k < m && i <= 2 * m
  {
    if i <= m then (if k < i then 1 else 0) else if Second(m, k) < i - m then 2 else 1
  }

  predicate Shaped(shards: seq<seq<WorkItem>>, m: nat, i: nat)
    requires i <= 2 * m
  {
    |shards| == m
    && forall k :: 0 <= k < m ==> Load(shards[k]) == LoadAt(m, i, k) && |shards[k]| == LengthAt(m, i, k)
  }

  lemma LightestIs(shards: seq<seq<WorkItem>>, k: nat)
    requires k < |shards| && forall j :: 0 <= j < |shards| ==> Preferred(shards, k, j)
    ensures LightestOf(shards, |shards|) == k
  {
    var found := LightestOf(shards, |shards|);
    assert Preferred(shards, found, k) && Preferred(shards, k, found);
  }

  /** The worker item i goes to: the next empty one, then the lightest with one item. */
  function Target(m: nat, i: nat): (k: nat)
    requires i < 2 * m
    ensures k < m
  {
    if i < m then i else Receiver(m, i - m)
  }

  /** It is lighter than any other worker, or level, not longer and numbered lower. */
  lemma TargetFirst(m: nat, i: nat, j: nat)
    requires i < 2 * m && j < m
    ensures var k := Target(m, i);
            LoadAt(m, i, k) < LoadAt(m, i, j)
            || (LoadAt(m, i, k) == LoadAt(m, i, j) && LengthAt(m, i, k) == LengthAt(m, i, j) && k <= j)
  {
  }

  /** And receives exactly what the next state says. */
  lemma TargetNext(m: nat, i: nat, j: nat)
    requires i < 2 * m && j < m
    ensures LoadAt(m, i + 1, j) == LoadAt(m, i, j) + if j == Target(m, i) then HeavyWeight(m, i) else 0
    ensures LengthAt(m, i + 1, j) == LengthAt(m, i, j) + if j == Target(m, i) then 1 else 0
  {
    if i >= m {
      SecondUnique(m, j, i - m);
      ReceiverWeight(m, i - m);
      hide Second, Receiver;
    }
  }

  lemma SecondUnique(m: nat, k: nat, q: nat)
    requires k < m && q < m
    ensures Second(m, k) == q <==> k == Receiver(m, q)
  {
  }

  /** The two items of a worker weigh 3m - 1 together. */
  lemma ReceiverWeight(m: nat, q: nat)
    requires q < m
    ensures Receiver(m, q) / 2 + (m + q) / 2 == m - 1
  {
  }

  lemma PlaceShaped(shards: seq<seq<WorkItem>>, m: nat, i: nat, item: WorkItem)
    requires i < 2 * m && Shaped(shards, m, i) && item.weightBytes == HeavyWeight(m, i)
    ensures Shaped(Place(shards, item), m, i + 1)
  {
    var k := Target(m, i);
    hide Load, LoadAt, LengthAt, HeavyWeight, Target, LightestOf;
    forall j | 0 <= j < |shards| ensures Preferred(shards, k, j) {
      TargetFirst(m, i, j);
    }
    LightestIs(shards, k);
    LoadAppend(shards[k], item);
    forall j | 0 <= j < m
      ensures Load(Place(shards, item)[j]) == LoadAt(m, i + 1, j) && |Place(shards, item)[j]| == LengthAt(m, i + 1, j)
    {
      TargetNext(m, i, j);
    }
  }

  lemma {:induction false} GreedyShaped(m: nat, ids: seq<string>, i: nat)
    requires 0 < m && |ids| == 2 * m + 1 && i <= 2 * m
    ensures Shaped(Balance(Items(m, ids)[..i], m), m, i)
  {
    hide Shaped, Balance, Place, HeavyWeight;
    if i == 0 {
      StartShaped(m);
      assert Items(m, ids)[..0] == [];
    } else {
      GreedyShaped(m, ids, i - 1);
      BalanceStep(Items(m, ids), i - 1, m);
      PlaceShaped(Balance(Items(m, ids)[..i - 1], m), m, i - 1, Items(m, ids)[i - 1]);
    }
  }

  lemma StartShaped(m: nat)
    requires 0 < m
    ensures Shaped(Balance([], m), m, 0)
  {
    NothingPlaced(m);
    hide Load;
  }

  /** All workers are level with two items each when the last item comes, and it goes to the first. */
  lemma GreedyLoads(m: nat, ids: seq<string>)
    requires 0 < m && |ids| == 2 * m + 1
    ensures var shards := Balance(Items(m, ids), m);
            && |shards| == m && Load(shards[0]) == 4 * m - 1
            && forall k :: 0 < k < m ==> Load(shards[k]) == 3 * m - 1
  {
    hide *;
    var items := Items(m, ids);
    LastItem(m, ids);
    GreedyShaped(m, ids, 2 * m);
    BalanceStep(items, 2 * m, m);
    LevelShards(Balance(items[..2 * m], m), m);
    LastPlace(Balance(items[..2 * m], m), m, items[2 * m]);
  }

  lemma LastItem(m: nat, ids: seq<string>)
    requires 0 < m && |ids| == 2 * m + 1
    ensures Items(m, ids)[..2 * m + 1] == Items(m, ids) && Items(m, ids)[2 * m].weightBytes == m
  {
  }

  lemma LastPlace(prior: seq<seq<WorkItem>>, m: nat, item: WorkItem)
    requires 0 < m == |prior| && item.weightBytes == m
    requires forall k :: 0 <= k < m ==> Load(prior[k]) == 3 * m - 1 && Preferred(prior, 0, k)
    ensures var shards := Place(prior, item);
            && |shards| == m && Load(shards[0]) == 4 * m - 1
            && forall k :: 0 < k < m ==> Load(shards[k]) == 3 * m - 1
  {
    hide Load, LightestOf, Preferred;
    LightestIs(prior, 0);
    LoadAppend(prior[0], item);
  }

  lemma LevelShards(shards: seq<seq<WorkItem>>, m: nat)
    requires 0 < m && Shaped(shards, m, 2 * m)
    ensures forall k :: 0 <= k < m ==> Load(shards[k]) == 3 * m - 1 && |shards[k]| == 2
    ensures forall k :: 0 <= k < m ==> Preferred(shards, 0, k)
  {
    forall k | 0 <= k < m ensures LoadAt(m, 2 * m, k) == 3 * m - 1 && LengthAt(m, 2 * m, k) == 2 {
      assert Second(m, k) < m;
    }
    hide Load, LoadAt, LengthAt;
  }

  // ----- a better assignment -----

  /** Items i and h - 1 - i. */
  function PairOf(items: seq<WorkItem>, h: nat, i: nat): seq<WorkItem>
    requires i < h <= |items|
  {
    [items[i], items[h - 1 - i]]
  }

  /** The first n pairs of 0, ..., h - 1. */
  function Pairs(items: seq<WorkItem>, h: nat, n: nat): (r: seq<seq<WorkItem>>)
    requires 2 * n <= h <= |items|
    ensures |r| == n
  {
    if n == 0 then [] else Pairs(items, h, n - 1) + [PairOf(items, h, n - 1)]
  }

  lemma {:induction false} PairsAt(items: seq<WorkItem>, h: nat, n: nat, i: nat)
    requires 2 * n <= h <= |items| && i < n
    ensures Pairs(items, h, n)[i] == PairOf(items, h, i)
  {
    hide PairOf;
    if i < n - 1 {
      PairsAt(items, h, n - 1, i);
    }
  }

  /** Heavy with light, and the last three together. */
  function Better(m: nat, ids: seq<string>): (r: seq<seq<WorkItem>>)
    requires 0 < m && |ids| == 2 * m + 1
    ensures |r| == m
  {
    PairUp(Items(m, ids), 2 * m - 2)
  }

  function PairUp(items: seq<WorkItem>, h: nat): (r: seq<seq<WorkItem>>)
    requires h <= |items| && h % 2 == 0
    ensures |r| == h / 2 + 1
  {
    Pairs(items, h, h / 2) + [items[h..]]
  }

  function Count(s: seq<WorkItem>, x: WorkItem): int {
    multiset(s)[x]
  }

  lemma CountConcat(s: seq<WorkItem>, t: seq<WorkItem>, x: WorkItem)
    ensures Count(s + t, x) == Count(s, x) + Count(t, x)
  {
  }

  lemma CountNone(x: WorkItem)
    ensures Count([], x) == 0
  {
  }

  lemma CountPair(a: WorkItem, b: WorkItem, x: WorkItem)
    ensures Count([a, b], x) == Count([a], x) + Count([b], x)
  {
    assert [a, b] == [a] + [b];
  }

  lemma CountAppended(shards: seq<seq<WorkItem>>, last: seq<WorkItem>, x: WorkItem)
    ensures Count(Flatten(shards + [last]), x) == Count(Flatten(shards), x) + Count(last, x)
  {
    assert (shards + [last])[..|shards|] == shards;
    assert Flatten(shards + [last]) == Flatten(shards) + last;
    CountConcat(Flatten(shards), last, x);
  }

  /** A slice with one more element at its end, and one with one more at its start. */
  lemma CountSlice(items: seq<WorkItem>, lo: nat, hi: nat, x: WorkItem)
    requires lo < hi <= |items|
    ensures Count(items[lo..hi], x) == Count(items[lo..hi - 1], x) + Count([items[hi - 1]], x)
    ensures Count(items[lo..hi], x) == Count([items[lo]], x) + Count(items[lo + 1..hi], x)
  {
    assert items[lo..hi] == items[lo..hi - 1] + [items[hi - 1]];
    assert items[lo..hi] == [items[lo]] + items[lo + 1..hi];
    CountConcat(items[lo..hi - 1], [items[hi - 1]], x);
    CountConcat([items[lo]], items[lo + 1..hi], x);
  }

  lemma NoPairs(items: seq<WorkItem>, h: nat, x: WorkItem)
    requires h <= |items|
    ensures Count(Flatten(Pairs(items, h, 0)), x) == Count(items[0..0], x) + Count(items[h..h], x)
  {
    assert Flatten(Pairs(items, h, 0)) == [] && items[0..0] == [] && items[h..h] == [];
    CountNone(x);
  }

  lemma NextPair(items: seq<WorkItem>, h: nat, n: nat, lo: nat)
    requires 2 * n + 2 <= h <= |items| && lo + n + 1 == h
    ensures Pairs(items, h, n + 1) == Pairs(items, h, n) + [[items[n], items[lo]]]
  {
    assert h - 1 - n == lo;
    assert PairOf(items, h, n) == [items[n], items[lo]];
  }

  /** One more pair takes one more item from either end. */
  lemma MorePairs(items: seq<WorkItem>, h: nat, n: nat, lo: nat, x: WorkItem)
    requires 2 * n + 2 <= h <= |items| && lo + n + 1 == h
    requires Count(Flatten(Pairs(items, h, n)), x) == Count(items[0..n], x) + Count(items[lo + 1..h], x)
    ensures Count(Flatten(Pairs(items, h, n + 1)), x) == Count(items[0..n + 1], x) + Count(items[lo..h], x)
  {
    NextPair(items, h, n, lo);
    hide *;
    CountAppended(Pairs(items, h, n), [items[n], items[lo]], x);
    CountPair(items[n], items[lo], x);
    CountSlice(items, 0, n + 1, x);
    CountSlice(items, lo, h, x);
  }

  lemma {:induction false} PairsHold(items: seq<WorkItem>, h: nat, n: nat, x: WorkItem)
    requires 2 * n <= h <= |items|
    ensures Count(Flatten(Pairs(items, h, n)), x) == Count(items[0..n], x) + Count(items[h - n..h], x)
  {
    hide *;
    if n == 0 {
      NoPairs(items, h, x);
    } else {
      PairsHold(items, h, n - 1, x);
      MorePairs(items, h, n - 1, h - n, x);
    }
  }

  lemma CountSplit(items: seq<WorkItem>, a: nat, h: nat, x: WorkItem)
    requires a <= h <= |items|
    ensures Count(items, x) == Count(items[0..a], x) + Count(items[a..h], x) + Count(items[h..], x)
  {
    assert items == items[0..a] + items[a..h] + items[h..];
    CountConcat(items[0..a] + items[a..h], items[h..], x);
    CountConcat(items[0..a], items[a..h], x);
  }

  /** Pairing up loses and adds nothing. */
  lemma PairUpHolds(items: seq<WorkItem>, h: nat, x: WorkItem)
    requires h <= |items| && h % 2 == 0
    ensures Count(Flatten(PairUp(items, h)), x) == Count(items, x)
  {
    PairsHold(items, h, h / 2, x);
    hide Flatten, Pairs, Count;
    CountAppended(Pairs(items, h, h / 2), items[h..], x);
    assert h - h / 2 == h / 2;
    CountSplit(items, h / 2, h, x);
  }

  lemma SameCounts(s: seq<WorkItem>, t: seq<WorkItem>)
    requires forall x :: Count(s, x) == Count(t, x)
    ensures multiset(s) == multiset(t)
  {
    assert forall x :: Count(s, x) == multiset(s)[x] && Count(t, x) == multiset(t)[x];
  }

  lemma BetterAssigns(m: nat, ids: seq<string>)
    requires 0 < m && |ids| == 2 * m + 1
    ensures IsAssignment(Better(m, ids), Items(m, ids), m)
  {
    assert Better(m, ids) == PairUp(Items(m, ids), 2 * m - 2);
    hide Flatten, PairUp, Items, Better;
    PairUpAssigns(Items(m, ids), 2 * m - 2);
  }

  lemma PairUpAssigns(items: seq<WorkItem>, h: nat)
    requires h <= |items| && h % 2 == 0
    ensures multiset(Flatten(PairUp(items, h))) == multiset(items)
  {
    hide *;
    forall x ensures Count(Flatten(PairUp(items, h)), x) == Count(items, x) {
      PairUpHolds(items, h, x);
    }
    SameCounts(Flatten(PairUp(items, h)), items);
  }

  lemma PairLoad(m: nat, ids: seq<string>, i: nat)
    requires |ids| == 2 * m + 1 && i < m - 1
    ensures Load(PairOf(Items(m, ids), 2 * m - 2, i)) == 3 * m
  {
    var a, b := Items(m, ids)[i], Items(m, ids)[2 * m - 3 - i];
    SumOne(Weight, a);
    LoadAppend([a], b);
    assert [a] + [b] == [a, b];
    assert (2 * m - 3 - i) / 2 == m - 2 - i / 2;
  }

  lemma LastLoad(m: nat, ids: seq<string>)
    requires 0 < m && |ids| == 2 * m + 1
    ensures Load(Items(m, ids)[2 * m - 2..]) == 3 * m
  {
    var last := Items(m, ids)[2 * m - 2..];
    SumOne(Weight, last[0]);
    LoadAppend([last[0]], last[1]);
    LoadAppend([last[0], last[1]], last[2]);
    assert [last[0]] + [last[1]] == [last[0], last[1]];
    assert [last[0], last[1]] + [last[2]] == last;
  }

  lemma MostIs(shards: seq<seq<WorkItem>>, most: int)
    requires shards != [] && Load(shards[0]) == most && forall k :: 0 <= k < |shards| ==> Load(shards[k]) <= most
    ensures MaxLoad(shards) == most
  {
    hide Load;
    assert Load(shards[0]) <= MaxLoad(shards);
    var k :| 0 <= k < |shards| && Load(shards[k]) == MaxLoad(shards);
  }

  lemma BetterMost(m: nat, ids: seq<string>)
    requires 0 < m && |ids| == 2 * m + 1
    ensures MaxLoad(Better(m, ids)) == 3 * m
  {
    forall k | 0 <= k < m ensures Load(Better(m, ids)[k]) == 3 * m {
      if k < m - 1 {
        PairsAt(Items(m, ids), 2 * m - 2, m - 1, k);
        assert Better(m, ids)[k] == PairOf(Items(m, ids), 2 * m - 2, k);
        PairLoad(m, ids, k);
      } else {
        assert Better(m, ids)[k] == Items(m, ids)[2 * m - 2..];
        LastLoad(m, ids);
      }
    }
    hide Load, Better, MaxLoad;
    MostIs(Better(m, ids), 3 * m);
  }

  /** For no number of workers can the bound be improved. */
  lemma BoundIsReached(m: nat, ids: seq<string>)
    requires 0 < m && |ids| == 2 * m + 1 && Ascending(ids)
    ensures Partition(Items(m, ids), m).Shards? && IsAssignment(Better(m, ids), Items(m, ids), m)
    ensures 3 * m * MaxLoad(Partition(Items(m, ids), m).shards) == (4 * m - 1) * MaxLoad(Better(m, ids))
    ensures MaxLoad(Better(m, ids)) > 0
  {
    ItemsSorted(m, ids);
    GreedyLoads(m, ids);
    BetterAssigns(m, ids);
    BetterMost(m, ids);
    assert Partition(Items(m, ids), m) == Shards(Balance(Items(m, ids), m));
    hide *;
    MostIs(Balance(Items(m, ids), m), 4 * m - 1);
    Commute(3 * m, 4 * m - 1);
  }

  lemma Commute(a: int, b: int)
    ensures a * b == b * a
  {
  }
}
