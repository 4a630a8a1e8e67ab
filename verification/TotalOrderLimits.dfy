/**
 What ordering by a service's total demand cannot give.  For every number n >= 2 of workers there is a dictionary,
 n(n-1) replicas of size 1 before one of size n, on which the strict scheduler reaches 2n-1 where n is possible: the
 factor 2 - 1/n of HeaviestFirstAgainstAny is reached, and the largest-first bound is broken.
 */
module TotalOrderLimits {
  import opened Sums
  import opened StableSort
  import opened Workload
  import opened Greedy
  import opened Makespan
  import opened Schedulers
  import opened Guarantees

  // ---------- small replicas in rows ----------

  /** Every "small" replica has size 1 and no memory is used. */
  ghost predicate Units(services: Services) {
    NoMemory(services) && "small" in services && services["small"].cpu == 1
  }

  lemma {:induction false} UnitLoad(services: Services, lo: nat, hi: nat)
    requires Units(services) && lo <= hi
    ensures Load(services, Replicas("small", lo, hi)) == hi - lo
    decreases hi - lo
  {
    if lo < hi {
      assert Replicas("small", lo, hi)[1..] == Replicas("small", lo + 1, hi);
      UnitLoad(services, lo + 1, hi);
    } else {
      assert Replicas("small", lo, hi) == [];
    }
  }

  /** m rows of n small replicas each, numbered from lo. */
  function Rows(lo: nat, m: nat, n: nat): Placement
    decreases m
  {
    if m == 0 then [] else [Replicas("small", lo, lo + n)] + Rows(lo + n, m - 1, n)
  }

  lemma {:induction false} RowsHold(services: Services, lo: nat, m: nat, n: nat)
    requires Units(services)
    ensures |Rows(lo, m, n)| == m && AllAtMost(services, Rows(lo, m, n), n)
    ensures Flatten(Rows(lo, m, n)) == Replicas("small", lo, lo + Times(m, n))
    decreases m
  {
    if m == 0 {
      assert Replicas("small", lo, lo) == [];
    } else {
      RowsHold(services, lo + n, m - 1, n);
      UnitLoad(services, lo, lo + n);
      var rest := Rows(lo + n, m - 1, n);
      var rows := [Replicas("small", lo, lo + n)] + rest;
      assert rows[1..] == rest;
      forall i | 0 <= i < m ensures Load(services, rows[i]) <= n {
        assert i > 0 ==> rows[i] == rest[i - 1];
      }
    }
  }

  // ---------- what greedy does with them ----------

  /** Within one of each other and full on average: every node is full. */
  lemma {:induction false} EvenlyFull(services: Services, placement: Placement, level: nat, i: nat)
    requires i < |placement| && GapAtMost(services, placement, 1)
    requires Total(SizeOf(services), placement) >= Times(|placement|, level)
    ensures Load(services, placement[i]) >= level
  {
    if Load(services, placement[i]) < level {
      TotalBelow(SizeOf(services), placement, i, level);
    }
  }

  // ---------- the dictionary ----------

  /** Two services that use only cpu, in dictionary order. */
  ghost function CpuOnly(first: string, cpu1: nat, count1: nat, second: string, cpu2: nat, count2: nat)
    : Dict<RawService>
  {
    Dict([first, second],
         map[first := ServiceDict(Number(cpu1), Number(0), Number(count1)),
             second := ServiceDict(Number(cpu2), Number(0), Number(count2))])
  }

  ghost function ManySmall(n: nat): Dict<RawService>
    requires n >= 2
  {
    CpuOnly("small", 1, Times(n - 1, n), "big", n, 1)
  }

  const BIG := Instance("big", 0)

  ghost function Smalls(n: nat): seq<Instance>
    requires n >= 2
  {
    Replicas("small", 0, Times(n - 1, n))
  }

  ghost function Workers(n: nat): seq<RawNode>
    requires n >= 2
  {
    seq(n, _ => NodeDict(Number(Times(n - 1, n) + n), Number(0)))
  }

  lemma {:induction false} ManySmallIsValid(n: nat)
    requires n >= 2
    ensures Usable(Workers(n), ManySmall(n)) && Times(n - 1, n) >= n
    ensures Units(ServicesOf(ManySmall(n))) && Size(ServicesOf(ManySmall(n)), BIG) == n
    ensures forall name | name in ManySmall(n).items :: Size(ServicesOf(ManySmall(n)), Instance(name, 0)) <= n
    ensures AllReplicas(ManySmall(n)) == Smalls(n) + [BIG]
  {
    assert Times(n - 1, n) == n + Times(n - 2, n);
    var services := ServicesOf(ManySmall(n));
    hide Times;
    ExpandSmallAndBig(services);
  }

  lemma {:induction false} ExpandSmallAndBig(services: Services)
    requires "small" in services && "big" in services && services["big"].instances == 1
    ensures Expand(["small", "big"], services) == Replicas("small", 0, services["small"].instances) + [BIG]
  {
    assert ["small", "big"][1..] == ["big"] && ["big"][1..] == [];
    assert Expand(["big"], services) == Replicas("big", 0, 1) + [] == [BIG];
  }

  lemma {:induction false} TotalsOfServices(n: nat)
    requires n >= 2 && ManySmall(n).Valid() && GoodServices(ManySmall(n))
    ensures forall k :: ServiceTotal(ServicesOf(ManySmall(n)), Instance("small", k)) == Times(n - 1, n)
    ensures ServiceTotal(ServicesOf(ManySmall(n)), BIG) == n
  {
    hide Times;
  }

  lemma {:induction false} ManySmallIsAmple(n: nat)
    requires n >= 2
    ensures Usable(Workers(n), ManySmall(n)) && AmpleCapacity(Workers(n), ManySmall(n))
  {
    hide CpuOnly, Times;
    ManySmallIsValid(n);
    var demands, all := ServicesOf(ManySmall(n)), AllReplicas(ManySmall(n));
    NoMemoryUse(demands, all);
    UnitLoad(demands, 0, Times(n - 1, n));
    SumAppend(SizeOf(demands), Smalls(n), BIG);
  }

  /** The small ones total at least as much as the big one and come first, so the dictionary order is the queue. */
  lemma {:induction false} SmallOnesGoFirst(n: nat)
    requires n >= 2
    ensures Usable(Workers(n), ManySmall(n)) && TotalQueue(ManySmall(n)) == Smalls(n) + [BIG]
  {
    hide ManySmall, Times, Expand, ServiceTotal;
    ManySmallIsValid(n);
    TotalsOfServices(n);
    SortOfSorted(ServiceTotalOf(ServicesOf(ManySmall(n))), AllReplicas(ManySmall(n)));
  }

  lemma {:induction false} SmallsAreRoomy(n: nat)
    requires n >= 2
    requires Usable(Workers(n), ManySmall(n)) && AmpleCapacity(Workers(n), ManySmall(n))
    ensures Roomy(ServicesOf(ManySmall(n)), NodesOf(Workers(n)), Empties(n), Smalls(n))
  {
    var demands := ServicesOf(ManySmall(n));
    SmallOnesGoFirst(n);
    AmpleIsRoomy(Workers(n), ManySmall(n), ServiceTotalOf(demands));
    hide ManySmall, Smalls, Roomy, SortDescending, Expand, AmpleCapacity;
    RoomyForFirst(demands, NodesOf(Workers(n)), Empties(n), Smalls(n), [BIG]);
  }

  lemma {:induction false} UnitSizes(services: Services, count: nat)
    requires Units(services)
    ensures forall x | x in Replicas("small", 0, count) :: Size(services, x) == 1
  {
  }

  lemma {:induction false} TimesSwaps(j: nat, k: nat)
    ensures Times(j, k) == Times(k, j)
  {
    TimesIsProduct(j, k);
    TimesIsProduct(k, j);
  }

  lemma {:induction false} SmallsAreUnits(n: nat)
    requires n >= 2 && Usable(Workers(n), ManySmall(n))
    ensures forall x | x in Smalls(n) :: Size(ServicesOf(ManySmall(n)), x) <= 1
    ensures Load(ServicesOf(ManySmall(n)), Smalls(n)) == Times(n, n - 1)
    ensures GapAtMost(ServicesOf(ManySmall(n)), Empties(n), 1)
  {
    ManySmallIsValid(n);
    hide ManySmall, Times, Size, Expand;
    UnitSizes(ServicesOf(ManySmall(n)), Times(n - 1, n));
    UnitLoad(ServicesOf(ManySmall(n)), 0, Times(n - 1, n));
    TimesSwaps(n - 1, n);
  }

  lemma {:induction false} SmallOnesFillUp(n: nat, i: nat)
    requires i < n && n >= 2
    requires Usable(Workers(n), ManySmall(n)) && AmpleCapacity(Workers(n), ManySmall(n))
    ensures var r := Strict(ServicesOf(ManySmall(n)), NodesOf(Workers(n)), Smalls(n), Empties(n));
      r.Some? && Load(ServicesOf(ManySmall(n)), r.value[i]) >= n - 1
  {
    hide ManySmall, Strict, Times, Size, Smalls, Roomy, GapAtMost, AmpleCapacity, Flatten;
    var demands, nodes := ServicesOf(ManySmall(n)), NodesOf(Workers(n));
    SmallsAreRoomy(n);
    SmallsAreUnits(n);
    GreedyKeepsGap(demands, nodes, Empties(n), Smalls(n), 1);
    StrictPlacesQueue(demands, nodes, Smalls(n));
    var d := Strict(demands, nodes, Smalls(n), Empties(n)).value;
    TotalOfPermutation(SizeOf(demands), d, Smalls(n));
    EvenlyFull(demands, d, n - 1, i);
  }

  /** The big one comes last, onto a node that already carries n-1. */
  lemma {:induction false} BigOneComesLast(n: nat)
    requires n >= 2
    requires Usable(Workers(n), ManySmall(n)) && AmpleCapacity(Workers(n), ManySmall(n))
    ensures HeaviestFirst(Workers(n), ManySmall(n)).Success? && HeaviestFirst(Workers(n), ManySmall(n)).value.Some?
    ensures MaxLoad(ServicesOf(ManySmall(n)), HeaviestFirst(Workers(n), ManySmall(n)).value.value) >= 2 * n - 1
  {
    ManySmallIsValid(n);
    SmallOnesGoFirst(n);
    hide ManySmall, Smalls, MaxLoad, Strict, Load, Size, SortDescending, Expand, AmpleCapacity, NearAverage, GapAtMost;
    var demands, nodes := ServicesOf(ManySmall(n)), NodesOf(Workers(n));
    HeaviestFirstApproximation(Workers(n), ManySmall(n), n);
    SmallOnesFillUp(n, 0);
    forall i | 0 <= i < n ensures Load(demands, Strict(demands, nodes, Smalls(n), Empties(n)).value[i]) >= n - 1 {
      SmallOnesFillUp(n, i);
    }
    LastOnTop(demands, nodes, Smalls(n), BIG, n - 1);
  }

  /** The big one alone and the small ones in rows: no node carries more than n. */
  lemma {:induction false} InRows(n: nat) returns (alt: Placement)
    requires n >= 2 && Usable(Workers(n), ManySmall(n))
    ensures Places(alt, n, AllReplicas(ManySmall(n))) && MaxLoad(ServicesOf(ManySmall(n)), alt) <= n
  {
    hide ManySmall, Workers, MaxLoad, Expand, Rows, Size;
    ManySmallIsValid(n);
    var demands, rows := ServicesOf(ManySmall(n)), Rows(0, n - 1, n);
    RowsHold(demands, 0, n - 1, n);
    alt := [[BIG]] + rows;
    assert alt[1..] == rows;
    assert Flatten(alt) == [BIG] + Smalls(n);
    SumAppend(SizeOf(demands), [], BIG);
    assert [] + [BIG] == [BIG];
    forall i | 0 <= i < |alt| ensures Load(demands, alt[i]) <= n {
      assert i > 0 ==> alt[i] == rows[i - 1];
    }
    MaxLoadIsMax(demands, alt, n);
  }

  // ---------- both bounds ----------

  /** The largest-first bound would need n <= 1. */
  lemma {:induction false} CornerIsTooHigh(n: nat)
    requires n >= 2
    ensures 3 * n * (2 * n - 1) > (4 * n - 1) * n
  {
    MulMono(n, 2, n);
    assert 3 * n * (2 * n - 1) == 6 * (n * n) - 3 * n;
    assert (4 * n - 1) * n == 4 * (n * n) - n;
  }

  lemma {:induction false} TwiceLessOneIsExact(n: nat, load: nat, limit: nat)
    requires n >= 2 && load >= 2 * n - 1 && limit <= n
    requires AtMostTimes(load, 2 * n - 1, n, limit)
    ensures load == 2 * n - 1 && limit == n
    ensures !UnderLargestFirstBound(n, load, limit)
  {
    AtMostTimesMeaning(load, 2 * n - 1, n, limit);
    AtMostTimesMeaning(load, 4 * n - 1, 3 * n, limit);
    hide AtMostTimes;
    RatioIsReached(n, 2 * n - 1, load, limit);
    CornerIsTooHigh(n);
  }

  /** On any number n >= 2 of workers the factor 2 - 1/n is reached, which the largest-first bound excludes. */
  lemma {:induction false} HeaviestFirstReachesTwiceLessOne(n: nat)
    returns (workers: seq<RawNode>, services: Dict<RawService>, alt: Placement)
    requires n >= 2
    ensures |workers| == n && Usable(workers, services) && AmpleCapacity(workers, services)
    ensures Places(alt, n, AllReplicas(services))
    ensures HeaviestFirst(workers, services).Success? && HeaviestFirst(workers, services).value.Some?
    ensures MaxLoad(ServicesOf(services), HeaviestFirst(workers, services).value.value) == 2 * n - 1
    ensures MaxLoad(ServicesOf(services), alt) == n
    ensures !UnderLargestFirstBound(
      n, MaxLoad(ServicesOf(services), HeaviestFirst(workers, services).value.value),
      MaxLoad(ServicesOf(services), alt))
  {
    hide ManySmall, HeaviestFirst, MaxLoad, AtMostTimes, UnderLargestFirstBound;
    workers, services := Workers(n), ManySmall(n);
    ManySmallIsAmple(n);
    alt := InRows(n);
    BigOneComesLast(n);
    HeaviestFirstAgainstAny(workers, services, alt);
    TwiceLessOneIsExact(
      n, MaxLoad(ServicesOf(services), HeaviestFirst(workers, services).value.value),
      MaxLoad(ServicesOf(services), alt));
  }

  /** The strict scheduler meets the largest-first bound on this input, against any assignment. */
  ghost predicate MeetsLargestFirstBound(workers: seq<RawNode>, services: Dict<RawService>)
    requires Usable(workers, services)
  {
    && HeaviestFirst(workers, services).Success? && HeaviestFirst(workers, services).value.Some?
    && forall alt | Places(alt, |workers|, AllReplicas(services)) ::
         UnderLargestFirstBound(
           |workers|, MaxLoad(ServicesOf(services), HeaviestFirst(workers, services).value.value),
           MaxLoad(ServicesOf(services), alt))
  }

  lemma {:induction false} OneWorkerMeetsBound(workers: seq<RawNode>, services: Dict<RawService>)
    requires Usable(workers, services) && AmpleCapacity(workers, services) && |workers| == 1
    ensures MeetsLargestFirstBound(workers, services)
  {
    hide HeaviestFirst, MaxLoad, AmpleCapacity;
    var alone := [AllReplicas(services)];
    assert Flatten(alone) == AllReplicas(services) + Flatten(alone[1..]);
    HeaviestFirstAgainstAny(workers, services, alone);
    forall alt | Places(alt, 1, AllReplicas(services))
      ensures UnderLargestFirstBound(
        1, MaxLoad(ServicesOf(services), HeaviestFirst(workers, services).value.value),
        MaxLoad(ServicesOf(services), alt))
    {
      HeaviestFirstAgainstAny(workers, services, alt);
      var load := MaxLoad(ServicesOf(services), HeaviestFirst(workers, services).value.value);
      AtMostTimesMeaning(load, 1, 1, MaxLoad(ServicesOf(services), alt));
      AtMostTimesMeaning(load, 3, 3, MaxLoad(ServicesOf(services), alt));
    }
  }

  /** Whatever the dictionary, the bound is met exactly when there is one worker. */
  lemma {:induction false} BoundForAllDictionariesExactlyWhen(n: nat)
    requires n > 0
    ensures (forall workers, services |
               |workers| == n && Usable(workers, services) && AmpleCapacity(workers, services) ::
               MeetsLargestFirstBound(workers, services)) <==>
            n == 1
  {
    hide Usable, AmpleCapacity, HeaviestFirst, MeetsLargestFirstBound;
    if n == 1 {
      forall workers, services | |workers| == n && Usable(workers, services) && AmpleCapacity(workers, services)
        ensures MeetsLargestFirstBound(workers, services)
      {
        OneWorkerMeetsBound(workers, services);
      }
    } else {
      var workers, services, alt := HeaviestFirstReachesTwiceLessOne(n);
      BoundIsBroken(workers, services, alt);
    }
  }

  lemma {:induction false} BoundIsBroken(workers: seq<RawNode>, services: Dict<RawService>, alt: Placement)
    requires Usable(workers, services) && Places(alt, |workers|, AllReplicas(services))
    requires HeaviestFirst(workers, services).Success? && HeaviestFirst(workers, services).value.Some?
    requires !UnderLargestFirstBound(
      |workers|, MaxLoad(ServicesOf(services), HeaviestFirst(workers, services).value.value),
      MaxLoad(ServicesOf(services), alt))
    ensures !MeetsLargestFirstBound(workers, services)
  {
  }
}
