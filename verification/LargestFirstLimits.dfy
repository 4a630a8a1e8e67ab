/**
 The largest-first bound is reached on every number n of workers: two replicas of each of the sizes 2n-1, ..., n+1 and
 three of size n make largest-first reach 4n-1 where 3n is possible, exactly the factor 4/3 - 1/(3n).
 */
module LargestFirstLimits {
  import opened Sums
  import opened StableSort
  import opened Workload
  import opened Greedy
  import opened Makespan
  import opened Schedulers
  import opened Guarantees

  // ---------- the dictionary ----------

  /** The name of the service whose replicas have size k. */
  function Unary(k: nat): (name: string)
    ensures |name| == k
  {
    seq(k, _ => '1')
  }

  function Item(k: nat, num: nat): Instance {
    Instance(Unary(k), num)
  }

  /** The services of sizes hi, ..., lo. */
  function Order(hi: nat, lo: nat): seq<string>
    requires lo > 0
  {
    if hi < lo then [] else [Unary(hi)] + Order(hi - 1, lo)
  }

  lemma {:induction false} OrderSplit(hi: nat, lo: nat)
    requires 0 < lo <= hi
    ensures Order(hi, lo) == Order(hi, lo + 1) + [Unary(lo)]
  {
    if hi > lo {
      OrderSplit(hi - 1, lo);
    }
  }

  lemma {:induction false} OrderDescends(hi: nat, lo: nat)
    requires lo > 0
    ensures |Order(hi, lo)| == if hi < lo then 0 else hi - lo + 1
    ensures forall i | 0 <= i < |Order(hi, lo)| :: lo <= hi - i && Order(hi, lo)[i] == Unary(hi - i)
  {
    hide Unary;
    if hi >= lo {
      OrderDescends(hi - 1, lo);
    }
  }

  ghost function Ladder(n: nat): Dict<RawService>
    requires n > 0
  {
    Dict(Order(2 * n - 1, n),
         map name | name in Order(2 * n - 1, n) ::
           ServiceDict(Number(|name|), Number(0), Number(if |name| == n then 3 else 2)))
  }

  /** Two replicas of each size above n up to 2n-1, three of size n, and no memory used. */
  ghost predicate Steps(services: Services, n: nat) {
    && NoMemory(services)
    && forall k | n <= k < 2 * n ::
         Unary(k) in services && services[Unary(k)] == Demand(k, 0, if k == n then 3 else 2)
  }

  lemma {:induction false} LadderIsSteps(n: nat)
    requires n > 0
    ensures Ladder(n).Valid() && GoodServices(Ladder(n)) && Ladder(n).order != []
    ensures Steps(ServicesOf(Ladder(n)), n)
  {
    var order := Order(2 * n - 1, n);
    OrderDescends(2 * n - 1, n);
    forall k | n <= k < 2 * n ensures Unary(k) in order {
      assert order[2 * n - 1 - k] == Unary(k);
    }
    forall i, j | 0 <= i < j < |order| ensures order[i] != order[j] {
      assert |order[i]| == 2 * n - 1 - i && |order[j]| == 2 * n - 1 - j;
    }
  }

  // ---------- its replicas ----------

  /** Replicas 0 and 1 of the sizes hi, ..., lo. */
  function Twins(hi: nat, lo: nat): seq<Instance>
    requires lo > 0
  {
    if hi < lo then [] else [Item(hi, 0), Item(hi, 1)] + Twins(hi - 1, lo)
  }

  lemma {:induction false} TwinsSplit(hi: nat, lo: nat)
    requires 0 < lo <= hi
    ensures Twins(hi, lo) == Twins(hi, lo + 1) + [Item(lo, 0), Item(lo, 1)]
  {
    if hi > lo {
      TwinsSplit(hi - 1, lo);
    }
  }

  lemma {:induction false} ExpandTwins(services: Services, n: nat, hi: nat, lo: nat)
    requires Steps(services, n) && 0 < n < lo && hi < 2 * n
    ensures forall name | name in Order(hi, lo) :: name in services
    ensures Expand(Order(hi, lo), services) == Twins(hi, lo)
  {
    if hi >= lo {
      ExpandTwins(services, n, hi - 1, lo);
      assert Replicas(Unary(hi), 0, 2) == [Item(hi, 0), Item(hi, 1)];
    }
  }

  lemma {:induction false} ThreeOfTheLast(n: nat)
    ensures Replicas(Unary(n), 0, 3) == [Item(n, 0), Item(n, 1)] + [Item(n, 2)]
  {
  }

  lemma {:induction false} Regroup<T>(a: seq<T>, b: seq<T>, c: seq<T>)
    ensures a + (b + c) == (a + b) + c
  {
  }

  /** Everything the ladder demands, in size order. */
  function Rungs(n: nat): seq<Instance>
    requires n > 0
  {
    Twins(2 * n - 1, n) + [Item(n, 2)]
  }

  lemma {:induction false} ExpandLadder(services: Services, n: nat)
    requires n > 0 && Steps(services, n)
    ensures forall name | name in Order(2 * n - 1, n) :: name in services
    ensures Expand(Order(2 * n - 1, n), services) == Rungs(n)
  {
    OrderSplit(2 * n - 1, n);
    TwinsSplit(2 * n - 1, n);
    ThreeOfTheLast(n);
    ExpandTwins(services, n, 2 * n - 1, n + 1);
    hide Unary, Item, Order, Twins, Expand;
    ExpandAppend(Order(2 * n - 1, n + 1), Unary(n), services);
    Regroup(Twins(2 * n - 1, n + 1), [Item(n, 0), Item(n, 1)], [Item(n, 2)]);
  }

  lemma {:induction false} LadderOrder(n: nat)
    requires n > 0
    ensures Ladder(n).order == Order(2 * n - 1, n)
  {
  }

  lemma {:induction false} DescendingWithTwo<T>(key: T -> nat, x: T, y: T, s: seq<T>)
    requires Descending(key, s) && key(x) == key(y) && forall z | z in s :: key(z) <= key(y)
    ensures Descending(key, [x, y] + s)
  {
    var all := [x, y] + s;
    forall i, j | 0 <= i < j < |all| ensures key(all[i]) >= key(all[j]) {
      assert j >= 2 ==> all[j] == s[j - 2] && s[j - 2] in s;
      assert i >= 2 ==> all[i] == s[i - 2];
    }
  }

  lemma {:induction false} TwinSizes(services: Services, n: nat, hi: nat, lo: nat)
    requires Steps(services, n) && 0 < n <= lo && hi < 2 * n
    ensures forall x | x in Twins(hi, lo) :: n <= Size(services, x) <= hi
    ensures Descending(SizeOf(services), Twins(hi, lo))
  {
    if hi >= lo {
      TwinSizes(services, n, hi - 1, lo);
      SizeOfItem(services, n, hi, 0);
      SizeOfItem(services, n, hi, 1);
      hide Item, Size, Descending, Steps;
      DescendingWithTwo(SizeOf(services), Item(hi, 0), Item(hi, 1), Twins(hi - 1, lo));
    }
  }

  lemma {:induction false} DescendingWithLast<T>(key: T -> nat, s: seq<T>, x: T)
    requires Descending(key, s) && forall y | y in s :: key(y) >= key(x)
    ensures Descending(key, s + [x])
  {
  }

  lemma {:induction false} RungsAreSorted(services: Services, n: nat)
    requires n > 0 && Steps(services, n)
    ensures SortDescending(SizeOf(services), Rungs(n)) == Rungs(n)
  {
    TwinSizes(services, n, 2 * n - 1, n);
    SizeOfItem(services, n, n, 2);
    hide Twins, Item, Size, SortDescending;
    DescendingWithLast(SizeOf(services), Twins(2 * n - 1, n), Item(n, 2));
    SortOfSorted(SizeOf(services), Rungs(n));
  }

  /** The dictionary lists its replicas in size order, so that order is the queue. */
  lemma {:induction false} LadderQueue(n: nat)
    requires n > 0 && Ladder(n).Valid() && GoodServices(Ladder(n)) && Steps(ServicesOf(Ladder(n)), n)
    ensures AllReplicas(Ladder(n)) == Rungs(n) == SizeQueue(Ladder(n))
  {
    LadderOrder(n);
    hide Ladder, Rungs, Order, Expand, SortDescending, Steps, ServicesOf;
    ExpandLadder(ServicesOf(Ladder(n)), n);
    RungsAreSorted(ServicesOf(Ladder(n)), n);
  }

  // ---------- pairing them ----------

  /** Replica num of the sizes hi, ..., lo. */
  function Column(hi: nat, lo: nat, num: nat): seq<Instance>
    requires lo > 0
  {
    if hi < lo then [] else [Item(hi, num)] + Column(hi - 1, lo, num)
  }

  /** How often x occurs. */
  ghost function Count(s: seq<Instance>, x: Instance): nat {
    multiset(s)[x]
  }

  lemma {:induction false} CountConcat(s: seq<Instance>, t: seq<Instance>, x: Instance)
    ensures Count(s + t, x) == Count(s, x) + Count(t, x)
  {
  }

  lemma {:induction false} CountTwo(x: Instance, y: Instance, z: Instance)
    ensures Count([x, y], z) == Count([x], z) + Count([y], z)
  {
    assert [x, y] == [x] + [y];
  }

  /** A column counted from its lower end. */
  lemma {:induction false} ColumnCount(hi: nat, lo: nat, num: nat, x: Instance)
    requires 0 < lo <= hi
    ensures Count(Column(hi, lo, num), x) == Count(Column(hi, lo + 1, num), x) + Count([Item(lo, num)], x)
  {
    hide Item, Count;
    CountConcat([Item(hi, num)], Column(hi - 1, lo, num), x);
    if hi > lo {
      ColumnCount(hi - 1, lo, num, x);
      CountConcat([Item(hi, num)], Column(hi - 1, lo + 1, num), x);
    } else {
      EmptyColumns(hi, lo, num);
      CountNone(x);
    }
  }

  lemma {:induction false} EmptyColumns(hi: nat, lo: nat, num: nat)
    requires 0 < lo == hi
    ensures Column(hi - 1, lo, num) == [] == Column(hi, lo + 1, num)
  {
  }

  lemma {:induction false} CountNone(x: Instance)
    ensures Count([], x) == 0
  {
  }

  lemma {:induction false} TwinsAreColumns(hi: nat, lo: nat, x: Instance)
    requires lo > 0
    ensures Count(Twins(hi, lo), x) == Count(Column(hi, lo, 0), x) + Count(Column(hi, lo, 1), x)
  {
    hide Item, Count;
    if hi >= lo {
      TwinsAreColumns(hi - 1, lo, x);
      CountConcat([Item(hi, 0), Item(hi, 1)], Twins(hi - 1, lo), x);
      CountTwo(Item(hi, 0), Item(hi, 1), x);
      CountConcat([Item(hi, 0)], Column(hi - 1, lo, 0), x);
      CountConcat([Item(hi, 1)], Column(hi - 1, lo, 1), x);
    } else {
      CountNone(x);
    }
  }

  /** One node for each size k from hi down to lo: replica 0 of size k and replica 1 of size sum - k. */
  function Pairs(hi: nat, lo: nat, sum: nat): Placement
    requires lo > 0 && hi <= sum
  {
    if hi < lo then [] else [[Item(hi, 0), Item(sum - hi, 1)]] + Pairs(hi - 1, lo, sum)
  }

  lemma {:induction false} PairsLoad(services: Services, n: nat, hi: nat, lo: nat, sum: nat)
    requires Steps(services, n) && 0 < n <= lo <= hi + 1 <= 2 * n
    requires n <= sum - hi && sum - lo < 2 * n
    ensures |Pairs(hi, lo, sum)| == hi + 1 - lo
    ensures forall j | 0 <= j < |Pairs(hi, lo, sum)| :: Load(services, Pairs(hi, lo, sum)[j]) == sum
  {
    hide Item, Load;
    if hi >= lo {
      var rest, pair := Pairs(hi - 1, lo, sum), [Item(hi, 0), Item(sum - hi, 1)];
      PairsLoad(services, n, hi - 1, lo, sum);
      LoadOfTwo(services, Item(hi, 0), Item(sum - hi, 1));
      SizeOfItem(services, n, hi, 0);
      SizeOfItem(services, n, sum - hi, 1);
      var pairs := [pair] + rest;
      forall j | 0 <= j < |pairs| ensures Load(services, pairs[j]) == sum {
        assert j > 0 ==> pairs[j] == rest[j - 1];
      }
    }
  }

  lemma {:induction false} PairsHold(hi: nat, lo: nat, sum: nat, x: Instance)
    requires 0 < lo <= hi + 1 && hi < sum
    ensures Count(Flatten(Pairs(hi, lo, sum)), x)
         == Count(Column(hi, lo, 0), x) + Count(Column(sum - lo, sum - hi, 1), x)
  {
    hide Item, Count;
    if hi >= lo {
      var rest, pair := Pairs(hi - 1, lo, sum), [Item(hi, 0), Item(sum - hi, 1)];
      PairsHold(hi - 1, lo, sum, x);
      assert ([pair] + rest)[1..] == rest;
      CountConcat(pair, Flatten(rest), x);
      CountTwo(Item(hi, 0), Item(sum - hi, 1), x);
      CountConcat([Item(hi, 0)], Column(hi - 1, lo, 0), x);
      ColumnCount(sum - lo, sum - hi, 1, x);
    } else {
      CountNone(x);
    }
  }

  lemma {:induction false} SizeOfItem(services: Services, n: nat, k: nat, num: nat)
    requires Steps(services, n) && n <= k < 2 * n
    ensures Size(services, Item(k, num)) == k
  {
    hide Unary;
  }

  lemma {:induction false} LoadOfTwo(services: Services, x: Instance, y: Instance)
    ensures Load(services, [x, y]) == Size(services, x) + Size(services, y)
  {
    SumAppend(SizeOf(services), [], x);
    SumAppend(SizeOf(services), [x], y);
    assert [] + [x] == [x] && [x] + [y] == [x, y];
  }

  lemma {:induction false} SameCounts(s: seq<Instance>, t: seq<Instance>)
    requires forall x :: Count(s, x) == Count(t, x)
    ensures multiset(s) == multiset(t)
  {
    forall x: Instance ensures multiset(s)[x] == multiset(t)[x] {
      assert Count(s, x) == Count(t, x);
    }
  }

  // ---------- what greedy does ----------

  lemma {:induction false} TwinsInPairsCount(n: nat, x: Instance)
    requires n > 0
    ensures Count(Flatten(Pairs(2 * n - 1, n, 3 * n - 1)), x) == Count(Twins(2 * n - 1, n), x)
  {
    hide Pairs, Twins, Column, Count, Item, Flatten;
    PairsHold(2 * n - 1, n, 3 * n - 1, x);
    TwinsAreColumns(2 * n - 1, n, x);
  }

  lemma {:induction false} TwinsInPairsHold(n: nat)
    requires n > 0
    ensures multiset(Flatten(Pairs(2 * n - 1, n, 3 * n - 1))) == multiset(Twins(2 * n - 1, n))
  {
    hide Pairs, Twins, Count, Flatten;
    var flat, twins := Flatten(Pairs(2 * n - 1, n, 3 * n - 1)), Twins(2 * n - 1, n);
    forall x ensures Count(flat, x) == Count(twins, x) {
      TwinsInPairsCount(n, x);
    }
    SameCounts(flat, twins);
  }

  /** All twins fit exactly into n nodes of 3n-1, in pairs. */
  lemma {:induction false} TwinsInPairs(services: Services, n: nat)
    requires n > 0 && Steps(services, n)
    ensures var alt, level := Pairs(2 * n - 1, n, 3 * n - 1), 3 * n - 1;
      && |alt| == n && multiset(Flatten(alt)) == multiset(Twins(2 * n - 1, n))
      && AllAtMost(services, alt, level) && Total(SizeOf(services), alt) == Times(n, level)
  {
    hide Pairs, Twins, Flatten, Total, Times;
    TwinsInPairsHold(n);
    PairsLoad(services, n, 2 * n - 1, n, 3 * n - 1);
    TotalExactly(SizeOf(services), Pairs(2 * n - 1, n, 3 * n - 1), 3 * n - 1);
  }

  lemma {:induction false} FullOnAverage(services: Services, placement: Placement, level: nat, i: nat)
    requires i < |placement| && AllAtMost(services, placement, level)
    requires Total(SizeOf(services), placement) == Times(|placement|, level)
    ensures Load(services, placement[i]) == level
  {
    if Load(services, placement[i]) < level {
      TotalBelow(SizeOf(services), placement, i, level);
    }
  }

  /** Large replicas that some assignment packs up to one level on every node are packed so by greedy too. */
  lemma {:induction false} GreedyFills(
    services: Services, nodes: seq<Capacity>, queue: seq<Instance>, alt: Placement, level: nat, i: nat)
    requires i < |nodes| == |alt| && Roomy(services, nodes, Empties(|nodes|), queue)
    requires Descending(SizeOf(services), queue) && multiset(Flatten(alt)) == multiset(queue)
    requires AllAtMost(services, alt, level) && Total(SizeOf(services), alt) == Times(|nodes|, level)
    requires forall x | x in queue :: 3 * Size(services, x) > level
    ensures var r := Strict(services, nodes, queue, Empties(|nodes|));
      r.Some? && Load(services, r.value[i]) == level
  {
    hide Flatten, Roomy, Descending, AllAtMost, Total, Times, Size, Strict, SizeOrdered, Load;
    StartsSizeOrdered(services, queue, alt, |nodes|);
    EmptiesAtMost(services, |nodes|, level);
    LargeOnesFit(services, nodes, Empties(|nodes|), queue, alt, level);
    StrictPlacesQueue(services, nodes, queue);
    var d := Strict(services, nodes, queue, Empties(|nodes|)).value;
    TotalOfPermutation(SizeOf(services), d, queue);
    TotalOfPermutation(SizeOf(services), alt, queue);
    FullOnAverage(services, d, level, i);
  }

  /** All twins exceed a third of 3n-1, so every node ends there. */
  lemma {:induction false} TwinsFill(services: Services, nodes: seq<Capacity>, n: nat, i: nat)
    requires i < n == |nodes| && Steps(services, n) && Roomy(services, nodes, Empties(n), Rungs(n))
    ensures var r := Strict(services, nodes, Twins(2 * n - 1, n), Empties(n));
      r.Some? && Load(services, r.value[i]) == 3 * n - 1
  {
    hide Twins, Pairs, Item, Steps, Roomy, Strict, Size, Times, Flatten, Load, AllAtMost, Total, Descending;
    TwinsInPairs(services, n);
    TwinSizes(services, n, 2 * n - 1, n);
    RoomyForFirst(services, nodes, Empties(n), Twins(2 * n - 1, n), [Item(n, 2)]);
    GreedyFills(services, nodes, Twins(2 * n - 1, n), Pairs(2 * n - 1, n, 3 * n - 1), 3 * n - 1, i);
  }

  /** The third replica of size n comes last, onto a node that already carries 3n-1. */
  lemma {:induction false} LastOneTowers(services: Services, nodes: seq<Capacity>, n: nat)
    requires n == |nodes| > 0 && Steps(services, n) && Roomy(services, nodes, Empties(n), Rungs(n))
    requires Strict(services, nodes, Rungs(n), Empties(n)).Some?
    ensures MaxLoad(services, Strict(services, nodes, Rungs(n), Empties(n)).value) >= 4 * n - 1
  {
    var twins, last := Twins(2 * n - 1, n), Item(n, 2);
    SizeOfItem(services, n, n, 2);
    assert Rungs(n) == twins + [last];
    hide Rungs, Twins, Item, Steps, Roomy, Size, MaxLoad, Strict, Load;
    TwinsFill(services, nodes, n, 0);
    forall i | 0 <= i < n ensures Load(services, Strict(services, nodes, twins, Empties(n)).value[i]) >= 3 * n - 1 {
      TwinsFill(services, nodes, n, i);
    }
    LastOnTop(services, nodes, twins, last, 3 * n - 1);
  }

  // ---------- what is possible ----------

  function Best(n: nat): Placement
    requires n > 0
  {
    [[Item(n, 0), Item(n, 1)] + [Item(n, 2)]] + Pairs(2 * n - 1, n + 1, 3 * n)
  }

  lemma {:induction false} BestFlat(n: nat)
    requires n > 0
    ensures Flatten(Best(n)) == ([Item(n, 0), Item(n, 1)] + [Item(n, 2)]) + Flatten(Pairs(2 * n - 1, n + 1, 3 * n))
    ensures Rungs(n) == (Twins(2 * n - 1, n + 1) + [Item(n, 0), Item(n, 1)]) + [Item(n, 2)]
  {
    TwinsSplit(2 * n - 1, n);
    hide Twins, Pairs, Item;
    assert Best(n)[1..] == Pairs(2 * n - 1, n + 1, 3 * n);
  }

  lemma {:induction false} BestCount(n: nat, x: Instance)
    requires n > 0
    ensures Count(Flatten(Best(n)), x) == Count(Rungs(n), x)
  {
    hide Best, Rungs, Twins, Pairs, Column, Count, Item, Flatten;
    var lower, pairs := [Item(n, 0), Item(n, 1)], Pairs(2 * n - 1, n + 1, 3 * n);
    var upper, last := Twins(2 * n - 1, n + 1), [Item(n, 2)];
    BestFlat(n);
    PairsHold(2 * n - 1, n + 1, 3 * n, x);
    TwinsAreColumns(2 * n - 1, n + 1, x);
    CountConcat(lower + last, Flatten(pairs), x);
    CountConcat(lower, last, x);
    CountConcat(upper + lower, last, x);
    CountConcat(upper, lower, x);
  }

  lemma {:induction false} BestPlaces(n: nat)
    requires n > 0
    ensures multiset(Flatten(Best(n))) == multiset(Rungs(n))
  {
    hide Best, Rungs, Count, Flatten;
    forall x ensures Count(Flatten(Best(n)), x) == Count(Rungs(n), x) {
      BestCount(n, x);
    }
    SameCounts(Flatten(Best(n)), Rungs(n));
  }

  lemma {:induction false} BestLoad(services: Services, n: nat)
    requires n > 0 && Steps(services, n)
    ensures |Best(n)| == n && MaxLoad(services, Best(n)) <= 3 * n
  {
    var first, pairs := [Item(n, 0), Item(n, 1)] + [Item(n, 2)], Pairs(2 * n - 1, n + 1, 3 * n);
    PairsLoad(services, n, 2 * n - 1, n + 1, 3 * n);
    assert |Best(n)| == n && Best(n)[0] == first && forall j | 0 < j < n :: Best(n)[j] == pairs[j - 1];
    SizeOfItem(services, n, n, 0);
    SizeOfItem(services, n, n, 1);
    SizeOfItem(services, n, n, 2);
    hide Best, Pairs, Item, Steps, Size, MaxLoad;
    LoadOfTwo(services, Item(n, 0), Item(n, 1));
    SumAppend(SizeOf(services), [Item(n, 0), Item(n, 1)], Item(n, 2));
    forall j | 0 <= j < n ensures Load(services, Best(n)[j]) <= 3 * n {
      assert j > 0 ==> Best(n)[j] == pairs[j - 1];
    }
    MaxLoadIsMax(services, Best(n), 3 * n);
  }

  // ---------- the bound is reached ----------

  lemma {:induction false} TopIsReached(n: nat, load: nat, limit: nat)
    requires n > 0 && load >= 4 * n - 1 && limit <= 3 * n && UnderLargestFirstBound(n, load, limit)
    ensures load == 4 * n - 1 && limit == 3 * n
  {
    AtMostTimesMeaning(load, 4 * n - 1, 3 * n, limit);
    hide AtMostTimes;
    RatioIsReached(3 * n, 4 * n - 1, load, limit);
  }

  /** On any number n of workers largest-first reaches 4n-1 where 3n is possible. */
  lemma {:induction false} LargestFirstReachesBound(n: nat)
    returns (workers: seq<RawNode>, services: Dict<RawService>, alt: Placement)
    requires n > 0
    ensures |workers| == n && Usable(workers, services) && AmpleCapacity(workers, services)
    ensures Places(alt, n, AllReplicas(services))
    ensures LargestFirst(workers, services).Some?
    ensures MaxLoad(ServicesOf(services), LargestFirst(workers, services).value) == 4 * n - 1
    ensures MaxLoad(ServicesOf(services), alt) == 3 * n
  {
    services := Ladder(n);
    LadderIsSteps(n);
    LadderQueue(n);
    workers, alt := RoomyWorkers(services, n), Best(n);
    RoomyWorkersAreAmple(services, n);
    BestPlaces(n);
    hide Ladder, Rungs, Best, Steps, Expand, SortDescending, RoomyWorkers, MaxLoad, UnderLargestFirstBound, Strict;
    var demands := ServicesOf(services);
    BestLoad(demands, n);
    AmpleIsRoomy(workers, services, SizeOf(demands));
    LargestFirstApproximation(workers, services, alt);
    LastOneTowers(demands, NodesOf(workers), n);
    TopIsReached(n, MaxLoad(demands, LargestFirst(workers, services).value), MaxLoad(demands, alt));
  }
}
