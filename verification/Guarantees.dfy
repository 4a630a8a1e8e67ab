/** Guarantees of the two strict schedulers, stated on their inputs and results: approximation, and too few nodes. */
module Guarantees {
  import opened Wrappers
  import opened Sums
  import opened StableSort
  import opened Workload
  import opened Greedy
  import opened NodeCount
  import opened Makespan
  import opened Schedulers

  /** No capacity can bind: each node alone could hold every demanded replica. */
  ghost predicate AmpleCapacity(workers: seq<RawNode>, services: Dict<RawService>)
    requires Usable(workers, services)
  {
    forall i | 0 <= i < |workers| ::
      && CpuUse(ServicesOf(services), AllReplicas(services)) <= NodesOf(workers)[i].cpu
      && MemoryUse(ServicesOf(services), AllReplicas(services)) <= NodesOf(workers)[i].memory
  }

  function MaxLoad(services: Services, placement: Placement): nat {
    if placement == [] then 0
    else
      var rest := MaxLoad(services, placement[1..]);
      var load := Load(services, placement[0]);
      if load > rest then load else rest
  }

  lemma {:induction false} MaxLoadIsMax(services: Services, placement: Placement, bound: nat)
    ensures MaxLoad(services, placement) <= bound <==> AllAtMost(services, placement, bound)
  {
    if placement != [] {
      MaxLoadIsMax(services, placement[1..], bound);
      if AllAtMost(services, placement, bound) {
        forall i | 0 <= i < |placement[1..]| ensures Load(services, placement[1..][i]) <= bound {
          assert placement[1..][i] == placement[i + 1];
        }
      }
      if AllAtMost(services, placement[1..], bound) && Load(services, placement[0]) <= bound {
        forall i | 0 <= i < |placement| ensures Load(services, placement[i]) <= bound {
          assert i > 0 ==> placement[i] == placement[1..][i - 1];
        }
      }
    }
  }

  lemma {:induction false} MaxLoadIsReached(services: Services, placement: Placement) returns (i: nat)
    requires placement != []
    ensures i < |placement| && Load(services, placement[i]) == MaxLoad(services, placement)
  {
    i := 0;
    if placement[1..] != [] && Load(services, placement[0]) != MaxLoad(services, placement) {
      var j := MaxLoadIsReached(services, placement[1..]);
      i := j + 1;
    }
  }

  lemma {:induction false} AtLeastAnyLoad(services: Services, placement: Placement, i: nat)
    requires i < |placement|
    ensures MaxLoad(services, placement) >= Load(services, placement[i])
  {
    hide MaxLoad;
    MaxLoadIsMax(services, placement, MaxLoad(services, placement));
  }

  lemma {:induction false} PutLoad(services: Services, placement: Placement, b: nat, x: Instance)
    requires b < |placement|
    ensures Load(services, Put(placement, b, x)[b]) == Load(services, placement[b]) + Size(services, x)
  {
    SumAppend(SizeOf(services), placement[b], x);
  }

  /** Whatever comes last lands on a node that is already loaded. */
  lemma {:induction false} LastOnTop(
    services: Services, nodes: seq<Capacity>, first: seq<Instance>, last: Instance, level: nat)
    requires Strict(services, nodes, first, Empties(|nodes|)).Some?
    requires forall i | 0 <= i < |nodes| ::
      Load(services, Strict(services, nodes, first, Empties(|nodes|)).value[i]) >= level
    requires Strict(services, nodes, first + [last], Empties(|nodes|)).Some?
    ensures MaxLoad(services, Strict(services, nodes, first + [last], Empties(|nodes|)).value)
         >= level + Size(services, last)
  {
    hide Strict, MaxLoad, Load, Size, Choose;
    StrictInTwoParts(services, nodes, first, [last], Empties(|nodes|));
    var before := Strict(services, nodes, first, Empties(|nodes|)).value;
    StrictOfOne(services, nodes, last, before);
    var b := Choose(services, nodes, before, last);
    PutLoad(services, before, b, last);
    AtLeastAnyLoad(services, Put(before, b, last), b);
  }

  lemma {:induction false} AmpleIsRoomy(workers: seq<RawNode>, services: Dict<RawService>, key: Instance -> nat)
    requires Usable(workers, services) && AmpleCapacity(workers, services)
    ensures Roomy(
      ServicesOf(services), NodesOf(workers), Empties(|workers|), SortDescending(key, AllReplicas(services)))
  {
    var demands, all := ServicesOf(services), AllReplicas(services);
    var queue := SortDescending(key, all);
    SortPermutes(key, all);
    SumOfMultiset(CpuOf(demands), queue, all);
    SumOfMultiset(MemoryOf(demands), queue, all);
    FlattenOfEmpty(CpuOf(demands), |workers|);
    FlattenOfEmpty(MemoryOf(demands), |workers|);
  }

  // ---------- largest first ----------

  /** Whatever key sorted the queue: if it came out in size order, Graham's bound for largest-first holds. */
  lemma {:induction false} OrderedQueueMeetsBound(
    workers: seq<RawNode>, services: Dict<RawService>, key: Instance -> nat, alt: Placement)
    requires Usable(workers, services) && AmpleCapacity(workers, services)
    requires Places(alt, |workers|, AllReplicas(services))
    requires Descending(SizeOf(ServicesOf(services)), SortDescending(key, AllReplicas(services)))
    ensures var demands := ServicesOf(services);
      var r := Strict(demands, NodesOf(workers), SortDescending(key, AllReplicas(services)), Empties(|workers|));
      r.Some? && UnderLargestFirstBound(|workers|, MaxLoad(demands, r.value), MaxLoad(demands, alt))
  {
    hide UnderLargestFirstBound;
    var demands, n := ServicesOf(services), |workers|;
    var queue, limit := SortDescending(key, AllReplicas(services)), MaxLoad(demands, alt);
    MaxLoadIsMax(demands, alt, limit);
    AmpleIsRoomy(workers, services, key);
    SortPermutes(key, AllReplicas(services));
    StartsSizeOrdered(demands, queue, alt, n);
    EmptiesWithinBound(demands, n, limit);
    LargestFirstRun(demands, NodesOf(workers), Empties(n), queue, alt, limit);
    var i := MaxLoadIsReached(demands, Strict(demands, NodesOf(workers), queue, Empties(n)).value);
  }

  /** Graham's bound for largest-first: the largest load is at most (4/3 - 1/(3n)) times that of any assignment. */
  lemma {:induction false} LargestFirstApproximation(workers: seq<RawNode>, services: Dict<RawService>, alt: Placement)
    requires Usable(workers, services) && AmpleCapacity(workers, services)
    requires Places(alt, |workers|, AllReplicas(services))
    ensures LargestFirst(workers, services).Some?
    ensures UnderLargestFirstBound(
      |workers|, MaxLoad(ServicesOf(services), LargestFirst(workers, services).value),
      MaxLoad(ServicesOf(services), alt))
  {
    var size := SizeOf(ServicesOf(services));
    SortDescends(size, AllReplicas(services));
    OrderedQueueMeetsBound(workers, services, size, alt);
  }

  lemma {:induction false} EmptiesWithinBound(services: Services, n: nat, limit: nat)
    requires n > 0
    ensures WithinLargestFirstBound(services, Empties(n), limit)
  {
    AtMostTimesMeaning(0, 4 * n - 1, 3 * n, limit);
  }

  /** When every replica exceeds a third of what some assignment needs, largest-first needs no more than it. */
  lemma {:induction false} LargestFirstIsOptimalForLarge(
    workers: seq<RawNode>, services: Dict<RawService>, alt: Placement)
    requires Usable(workers, services) && AmpleCapacity(workers, services)
    requires Places(alt, |workers|, AllReplicas(services))
    requires forall name | name in services.items ::
      3 * Size(ServicesOf(services), Instance(name, 0)) > MaxLoad(ServicesOf(services), alt)
    ensures LargestFirst(workers, services).Some?
    ensures MaxLoad(ServicesOf(services), LargestFirst(workers, services).value) <= MaxLoad(ServicesOf(services), alt)
  {
    var demands, n, queue := ServicesOf(services), |workers|, SizeQueue(services);
    var limit := MaxLoad(demands, alt);
    MaxLoadIsMax(demands, alt, limit);
    AmpleIsRoomy(workers, services, SizeOf(demands));
    SortDescends(SizeOf(demands), AllReplicas(services));
    SortPermutes(SizeOf(demands), AllReplicas(services));
    StartsSizeOrdered(demands, queue, alt, n);
    EmptiesAtMost(demands, n, limit);
    QueueIsDemanded(services, SizeOf(demands));
    hide MaxLoad, SortDescending, Strict;
    LargeOnesFit(demands, NodesOf(workers), Empties(n), queue, alt, limit);
    MaxLoadIsMax(demands, LargestFirst(workers, services).value, limit);
  }

  lemma {:induction false} QueueIsDemanded(services: Dict<RawService>, key: Instance -> nat)
    requires services.Valid() && GoodServices(services)
    ensures forall x | x in SortDescending(key, AllReplicas(services)) ::
      x.name in services.items && Size(ServicesOf(services), x) == Size(ServicesOf(services), Instance(x.name, 0))
  {
    forall x | x in SortDescending(key, AllReplicas(services)) ensures x.name in services.items {
      assert multiset(SortDescending(key, AllReplicas(services)))[x] > 0;
      QueueDemands(services, key, x);
    }
  }

  lemma {:induction false} EmptiesAtMost(services: Services, n: nat, limit: nat)
    ensures AllAtMost(services, Empties(n), limit)
  {
  }

  /** n workers of which none can run out of room. */
  ghost function RoomyWorkers(services: Dict<RawService>, n: nat): seq<RawNode>
    requires services.Valid() && GoodServices(services)
  {
    var demands, all := ServicesOf(services), AllReplicas(services);
    seq(n, _ => NodeDict(Number(CpuUse(demands, all)), Number(MemoryUse(demands, all))))
  }

  lemma {:induction false} RoomyWorkersAreAmple(services: Dict<RawService>, n: nat)
    requires services.Valid() && GoodServices(services) && services.order != [] && n > 0
    ensures Usable(RoomyWorkers(services, n), services) && AmpleCapacity(RoomyWorkers(services, n), services)
  {
  }

  // ---------- any order ----------

  lemma {:induction false} SizesBounded(services: Dict<RawService>, key: Instance -> nat, largest: nat)
    requires services.Valid() && GoodServices(services)
    requires forall name | name in services.items :: Size(ServicesOf(services), Instance(name, 0)) <= largest
    ensures forall x | x in SortDescending(key, AllReplicas(services)) :: Size(ServicesOf(services), x) <= largest
  {
    forall x | x in SortDescending(key, AllReplicas(services)) ensures Size(ServicesOf(services), x) <= largest {
      assert multiset(SortDescending(key, AllReplicas(services)))[x] > 0;
      QueueDemands(services, key, x);
      assert Size(ServicesOf(services), x) == Size(ServicesOf(services), Instance(x.name, 0));
    }
  }

  /** Graham's list-scheduling bound: the loads end within one replica of each other, and near the average. */
  lemma {:induction false} HeaviestFirstApproximation(workers: seq<RawNode>, services: Dict<RawService>, largest: nat)
    requires Usable(workers, services) && AmpleCapacity(workers, services)
    requires forall name | name in services.items :: Size(ServicesOf(services), Instance(name, 0)) <= largest
    ensures HeaviestFirst(workers, services).Success? && HeaviestFirst(workers, services).value.Some?
    ensures var n, d := |workers|, HeaviestFirst(workers, services).value.value;
      && GapAtMost(ServicesOf(services), d, largest)
      && NearAverage(n, MaxLoad(ServicesOf(services), d), Load(ServicesOf(services), AllReplicas(services)), largest)
  {
    var demands, nodes, queue := ServicesOf(services), NodesOf(workers), TotalQueue(services);
    var key := ServiceTotalOf(demands);
    AmpleIsRoomy(workers, services, key);
    SizesBounded(services, key, largest);
    GreedyKeepsGap(demands, nodes, Empties(|nodes|), queue, largest);
    StrictPlacesQueue(demands, nodes, queue);
    var d := HeaviestFirst(workers, services).value.value;
    var i := MaxLoadIsReached(demands, d);
    GapBoundsLoad(demands, d, largest, i);
    TotalOfPermutation(SizeOf(demands), d, queue);
    SortPermutes(key, AllReplicas(services));
    SumOfMultiset(SizeOf(demands), queue, AllReplicas(services));
  }

  lemma {:induction false} LargestIsBelowAny(services: Dict<RawService>, alt: Placement, n: nat, limit: nat)
    requires services.Valid() && GoodServices(services)
    requires Places(alt, n, AllReplicas(services)) && AllAtMost(ServicesOf(services), alt, limit)
    ensures forall name | name in services.items :: Size(ServicesOf(services), Instance(name, 0)) <= limit
    ensures Load(ServicesOf(services), AllReplicas(services)) <= Times(n, limit)
  {
    TimesIsProduct(n, limit);
    var demands := ServicesOf(services);
    forall name | name in services.items ensures Size(demands, Instance(name, 0)) <= limit {
      var x := Instance(name, 0);
      ExpandCounts(services.order, demands, x);
      assert x in multiset(Flatten(alt));
      PlacedWithinLimit(demands, alt, x, limit);
    }
    TotalAtMost(SizeOf(demands), alt, limit);
    TotalOfPermutation(SizeOf(demands), alt, AllReplicas(services));
  }

  lemma {:induction false} TwiceLessOne(n: nat, load: nat, total: nat, limit: nat)
    requires NearAverage(n, load, total, limit) && total <= Times(n, limit)
    ensures AtMostTimes(load, 2 * n - 1, n, limit)
  {
    TimesAdds(n, n - 1, limit);
  }

  /** Hence at most (2 - 1/n) times the largest load of any assignment. */
  lemma {:induction false} HeaviestFirstAgainstAny(workers: seq<RawNode>, services: Dict<RawService>, alt: Placement)
    requires Usable(workers, services) && AmpleCapacity(workers, services)
    requires Places(alt, |workers|, AllReplicas(services))
    ensures HeaviestFirst(workers, services).Success? && HeaviestFirst(workers, services).value.Some?
    ensures AtMostTimes(MaxLoad(ServicesOf(services), HeaviestFirst(workers, services).value.value),
                        2 * |workers| - 1, |workers|, MaxLoad(ServicesOf(services), alt))
  {
    hide AtMostTimes, NearAverage, Times, HeaviestFirst;
    var demands := ServicesOf(services);
    var limit := MaxLoad(demands, alt);
    MaxLoadIsMax(demands, alt, limit);
    LargestIsBelowAny(services, alt, |workers|, limit);
    HeaviestFirstApproximation(workers, services, limit);
    TwiceLessOne(|workers|, MaxLoad(demands, HeaviestFirst(workers, services).value.value),
                 Load(demands, AllReplicas(services)), limit);
  }

  // ---------- too few default nodes ----------

  /** On fewer default nodes than that the strict scheduler always gives up. */
  lemma {:induction false} TooFewNodes(workers: seq<RawNode>, clusters: Dict<RawService>)
    requires Usable(workers, clusters)
    requires forall i | 0 <= i < |workers| :: NodeOf(workers[i]) == DEFAULT_NODE
    requires |workers| < Needed(clusters)
    ensures HeaviestFirst(workers, clusters) == Success(None)
  {
    hide NodesFor, CpuDemand, MemoryDemand, Expand, SortDescending, Strict;
    if HeaviestFirst(workers, clusters).value.Some? {
      var services := ServicesOf(clusters);
      var key := ServiceTotalOf(services);
      StrictPlacesQueue(services, NodesOf(workers), TotalQueue(clusters));
      SortPermutes(key, AllReplicas(clusters));
      assert NodesOf(workers) == seq(|workers|, _ => DEFAULT_NODE);
      NeededIsLowerBound(clusters, HeaviestFirst(workers, clusters).value.value, |workers|);
    }
  }
}
