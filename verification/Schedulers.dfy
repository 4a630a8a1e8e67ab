/**
 The three schedulers.  LargestFirst (modules/server/servertest1.py) queues replicas by their own size and gives
 up on failure; HeaviestFirst (server/nodes/distribute_nodes_services.py) queues them by their service's total
 demand and gives up; Skipping (server/nodes/cluster_worker_distribution.py) uses that same queue and skips.
 */
module Schedulers {
  import opened Wrappers
  import opened Sums
  import opened StableSort
  import opened Workload
  import opened Greedy
  import opened NodeCount

  // ---------- the queues ----------

  ghost function SizeQueue(services: Dict<RawService>): seq<Instance>
    requires services.Valid() && GoodServices(services)
  {
    SortDescending(SizeOf(ServicesOf(services)), AllReplicas(services))
  }

  ghost function TotalQueue(services: Dict<RawService>): seq<Instance>
    requires services.Valid() && GoodServices(services)
  {
    SortDescending(ServiceTotalOf(ServicesOf(services)), AllReplicas(services))
  }

  // ---------- what each scheduler returns ----------

  ghost function LargestFirst(workers: seq<RawNode>, services: Dict<RawService>): Option<Placement>
    requires services.Valid()
  {
    if workers == [] || services.order == [] || !GoodNodes(workers) || !GoodServices(services) then None
    else Strict(ServicesOf(services), NodesOf(workers), SizeQueue(services), Empties(|workers|))
  }

  /**
   The constructor leaves the object without attributes when there are no services.  Without workers the call first
   computes how many nodes are needed, which raises on an entry that is not numeric.
   */
  ghost function HeaviestFirst(workers: seq<RawNode>, services: Dict<RawService>)
    : Result<Option<Placement>, PythonError>
    requires services.Valid()
  {
    if services.order == [] then Failure(AttributeError)
    else if workers == [] then (if AllNumeric(services) then Success(None) else Failure(BadEntry))
    else if !GoodNodes(workers) || !GoodServices(services) then Success(None)
    else Success(Strict(ServicesOf(services), NodesOf(workers), TotalQueue(services), Empties(|workers|)))
  }

  ghost function Skipping(workers: seq<RawNode>, services: Dict<RawService>): Option<Placement>
    requires services.Valid()
  {
    if !GoodNodes(workers) || !GoodServices(services) then None
    else Some(Lenient(ServicesOf(services), NodesOf(workers), TotalQueue(services), Empties(|workers|)).0)
  }

  /** The replicas the skipping scheduler only prints a warning for. */
  ghost function Skipped(workers: seq<RawNode>, services: Dict<RawService>): seq<Instance>
    requires services.Valid() && GoodNodes(workers) && GoodServices(services)
  {
    Lenient(ServicesOf(services), NodesOf(workers), TotalQueue(services), Empties(|workers|)).1
  }

  // ---------- the programs ----------

  method PlaceOrGiveUp(services: Services, nodes: seq<Capacity>, queue: seq<Instance>) returns (r: Option<Placement>)
    ensures r == Strict(services, nodes, queue, Empties(|nodes|))
  {
    var distribution: Placement := Empties(|nodes|);
    for i := 0 to |queue|
      invariant |distribution| == |nodes|
      invariant Strict(services, nodes, queue, Empties(|nodes|)) == Strict(services, nodes, queue[i..], distribution)
    {
      var best := FindBestNode(services, nodes, distribution, queue[i]);
      assert queue[i..][1..] == queue[i + 1..];
      if best != -1 {
        distribution := distribution[best := distribution[best] + [queue[i]]];
      } else {
        return None;
      }
    }
    return Some(distribution);
  }

  method DistributeMicroservices(workers: seq<RawNode>, services: Dict<RawService>) returns (r: Option<Placement>)
    requires services.Valid()
    ensures r == LargestFirst(workers, services)
  {
    if workers == [] || services.order == [] {
      return None;
    }
    var goodNodes := CheckNodes(workers);
    if !goodNodes {
      return None;
    }
    var goodServices := CheckServices(services);
    if !goodServices {
      return None;
    }
    var demands := ServicesOf(services);
    var all := ExpandAll(services.order, demands);
    r := PlaceOrGiveUp(demands, NodesOf(workers), SortDescending(SizeOf(demands), all));
  }

  method DistributeClusterNodes(workers: seq<RawNode>, clusters: Dict<RawService>)
    returns (r: Result<Option<Placement>, PythonError>)
    requires clusters.Valid()
    ensures r == HeaviestFirst(workers, clusters)
  {
    if clusters.order == [] {
      return Failure(AttributeError);
    }
    if workers == [] {
      var needed := CalculateNodesNeeded(workers, clusters);
      return if needed.Failure? then Failure(needed.error) else Success(None);
    }
    var goodNodes := CheckNodes(workers);
    if !goodNodes {
      return Success(None);
    }
    var goodClusters := CheckServices(clusters);
    if !goodClusters {
      return Success(None);
    }
    var demands := ServicesOf(clusters);
    var all := ExpandAll(clusters.order, demands);
    var placed := PlaceOrGiveUp(demands, NodesOf(workers), SortDescending(ServiceTotalOf(demands), all));
    return Success(placed);
  }

  method DistributeClusterNodesSkipping(workers: seq<RawNode>, clusters: Dict<RawService>)
    returns (r: Option<Placement>)
    requires clusters.Valid()
    ensures r == Skipping(workers, clusters)
  {
    var goodNodes := CheckNodes(workers);
    if !goodNodes {
      return None;
    }
    var goodClusters := CheckServices(clusters);
    if !goodClusters {
      return None;
    }
    var demands, nodes := ServicesOf(clusters), NodesOf(workers);
    var all := ExpandAll(clusters.order, demands);
    var queue := SortDescending(ServiceTotalOf(demands), all);
    var distribution: Placement := Empties(|nodes|);
    for i := 0 to |queue|
      invariant |distribution| == |nodes|
      invariant Lenient(demands, nodes, queue, Empties(|nodes|)).0
        == Lenient(demands, nodes, queue[i..], distribution).0
    {
      var best := FindBestNode(demands, nodes, distribution, queue[i]);
      assert queue[i..][1..] == queue[i + 1..];
      if best != -1 {
        distribution := distribution[best := distribution[best] + [queue[i]]];
      }
    }
    return Some(distribution);
  }

  // ---------- safety and exact coverage ----------

  /** Sorting or not, the queue demands every replica of every service exactly once and nothing else. */
  lemma {:induction false} QueueDemands(services: Dict<RawService>, key: Instance -> nat, x: Instance)
    requires services.Valid() && GoodServices(services)
    ensures multiset(SortDescending(key, AllReplicas(services)))[x]
      == if Demanded(ServicesOf(services), x) then 1 else 0
  {
    SortPermutes(key, AllReplicas(services));
    ExpandCounts(services.order, ServicesOf(services), x);
  }

  /** The empty start is within capacity and holds nothing. */
  lemma {:induction false} StartsEmpty(services: Services, nodes: seq<Capacity>)
    ensures WithinCapacity(services, nodes, Empties(|nodes|))
    ensures Flatten(Empties<Instance>(|nodes|)) == []
  {
    FlattenOfEmpty(SizeOf(services), |nodes|);
  }

  /** A strict placement of the queue overfills no node and holds exactly the queue. */
  lemma {:induction false} StrictPlacesQueue(services: Services, nodes: seq<Capacity>, queue: seq<Instance>)
    requires Strict(services, nodes, queue, Empties(|nodes|)).Some?
    ensures var d := Strict(services, nodes, queue, Empties(|nodes|)).value;
      WithinCapacity(services, nodes, d) && Places(d, |nodes|, queue)
  {
    StartsEmpty(services, nodes);
    StrictRefinesLenient(services, nodes, queue, Empties(|nodes|));
    LenientIsSafe(services, nodes, queue, Empties(|nodes|));
    LenientKeepsEverything(services, nodes, queue, Empties(|nodes|));
    var (final, skipped) := Lenient(services, nodes, queue, Empties(|nodes|));
    assert Flatten(final) + skipped == Flatten(final);
    assert Flatten(Empties<Instance>(|nodes|)) + queue == queue;
  }

  /** A returned distribution respects every capacity and holds each demanded replica once and nothing else. */
  ghost predicate SafeAndExact(workers: seq<RawNode>, services: Dict<RawService>, d: Placement) {
    && GoodNodes(workers) && GoodServices(services)
    && WithinCapacity(ServicesOf(services), NodesOf(workers), d)
    && forall x :: multiset(Flatten(d))[x] == if Demanded(ServicesOf(services), x) then 1 else 0
  }

  lemma {:induction false} LargestFirstIsSafeAndExact(workers: seq<RawNode>, services: Dict<RawService>)
    requires services.Valid() && LargestFirst(workers, services).Some?
    ensures SafeAndExact(workers, services, LargestFirst(workers, services).value)
  {
    var demands := ServicesOf(services);
    StrictPlacesQueue(demands, NodesOf(workers), SizeQueue(services));
    forall x { QueueDemands(services, SizeOf(demands), x); }
  }

  lemma {:induction false} HeaviestFirstIsSafeAndExact(workers: seq<RawNode>, services: Dict<RawService>)
    requires services.Valid()
    requires HeaviestFirst(workers, services).Success? && HeaviestFirst(workers, services).value.Some?
    ensures SafeAndExact(workers, services, HeaviestFirst(workers, services).value.value)
  {
    var demands := ServicesOf(services);
    StrictPlacesQueue(demands, NodesOf(workers), TotalQueue(services));
    forall x { QueueDemands(services, ServiceTotalOf(demands), x); }
  }

  ghost predicate Usable(workers: seq<RawNode>, services: Dict<RawService>) {
    services.Valid() && workers != [] && services.order != [] && GoodNodes(workers) && GoodServices(services)
  }

  /** On usable inputs None means that at some turn the replica whose turn it was fitted on no node. */
  lemma {:induction false} LargestFirstFailure(workers: seq<RawNode>, services: Dict<RawService>)
    requires Usable(workers, services)
    ensures LargestFirst(workers, services) == None <==>
      exists j :: 0 <= j < |SizeQueue(services)| &&
        StuckAt(ServicesOf(services), NodesOf(workers), SizeQueue(services), Empties(|workers|), j)
  {
    StrictFailure(ServicesOf(services), NodesOf(workers), SizeQueue(services), Empties(|workers|));
  }

  lemma {:induction false} HeaviestFirstFailure(workers: seq<RawNode>, services: Dict<RawService>)
    requires Usable(workers, services)
    ensures HeaviestFirst(workers, services) == Success(None) <==>
      exists j :: 0 <= j < |TotalQueue(services)| &&
        StuckAt(ServicesOf(services), NodesOf(workers), TotalQueue(services), Empties(|workers|), j)
  {
    StrictFailure(ServicesOf(services), NodesOf(workers), TotalQueue(services), Empties(|workers|));
  }

  // ---------- strict and skipping ----------

  /** The strict scheduler returns a distribution exactly when the skipping one drops nothing; then they agree. */
  lemma {:induction false} HeaviestFirstRefinesSkipping(workers: seq<RawNode>, services: Dict<RawService>)
    requires Usable(workers, services)
    ensures HeaviestFirst(workers, services)
      == Success(if Skipped(workers, services) == [] then Skipping(workers, services) else None)
  {
    StrictRefinesLenient(ServicesOf(services), NodesOf(workers), TotalQueue(services), Empties(|workers|));
  }

  /** One worker of cpu 1 and one replica of cpu 2: the skipping scheduler drops it and returns an empty worker. */
  lemma {:induction false} SkippingCanDrop() returns (workers: seq<RawNode>, services: Dict<RawService>)
    ensures Usable(workers, services)
    ensures Skipped(workers, services) == [Instance("a", 0)] && Skipping(workers, services) == Some([[]])
    ensures HeaviestFirst(workers, services) == Success(None)
  {
    workers := [NodeDict(Number(1), Number(0))];
    services := Dict(["a"], map["a" := ServiceDict(Number(2), Number(0), Number(1))]);
    var demands, x := ServicesOf(services), Instance("a", 0);
    assert Expand(["a"], demands) == Replicas("a", 0, 1) + [] == [x] && [x][1..] == [];
    assert TotalQueue(services) == [x];
    assert Empties<Instance>(1) == [[]] && !Fits(demands, NodesOf(workers)[0], [], x);
    HeaviestFirstRefinesSkipping(workers, services);
  }

  /** The skipping scheduler overfills no node, and what it skips fits on no node even at the end. */
  lemma {:induction false} SkippingIsSafeAndMaximal(workers: seq<RawNode>, services: Dict<RawService>)
    requires services.Valid() && Skipping(workers, services).Some?
    ensures var d := Skipping(workers, services).value;
      && WithinCapacity(ServicesOf(services), NodesOf(workers), d)
      && (forall x | x in Skipped(workers, services) :: FitsNowhere(ServicesOf(services), NodesOf(workers), d, x))
  {
    var demands, nodes, queue := ServicesOf(services), NodesOf(workers), TotalQueue(services);
    StartsEmpty(demands, nodes);
    LenientIsSafe(demands, nodes, queue, Empties(|nodes|));
    forall x | x in Skipped(workers, services)
      ensures FitsNowhere(demands, nodes, Skipping(workers, services).value, x)
    {
      SkippedStillFitsNowhere(demands, nodes, queue, Empties(|nodes|), x);
    }
  }

  /** Every demanded replica is either placed or skipped, once, and there is nothing else. */
  lemma {:induction false} SkippingAccountsForAll(workers: seq<RawNode>, services: Dict<RawService>, x: Instance)
    requires services.Valid() && Skipping(workers, services).Some?
    ensures multiset(Flatten(Skipping(workers, services).value))[x] + multiset(Skipped(workers, services))[x]
      == if Demanded(ServicesOf(services), x) then 1 else 0
  {
    var demands, nodes, queue := ServicesOf(services), NodesOf(workers), TotalQueue(services);
    var (final, skipped) := Lenient(demands, nodes, queue, Empties(|nodes|));
    StartsEmpty(demands, nodes);
    LenientKeepsEverything(demands, nodes, queue, Empties(|nodes|));
    assert Flatten(Empties<Instance>(|nodes|)) + queue == queue;
    assert multiset(Flatten(final) + skipped)[x] == multiset(queue)[x];
    QueueDemands(services, ServiceTotalOf(demands), x);
  }

  lemma {:induction false} OnlyConcat<T>(p: T -> bool, s: seq<T>, t: seq<T>)
    ensures Only(p, s + t) == Only(p, s) + Only(p, t)
  {
    if s == [] {
      assert s + t == t;
    } else {
      assert (s + t)[1..] == s[1..] + t;
      OnlyConcat(p, s[1..], t);
    }
  }

  lemma {:induction false} OnlyCount<T>(p: T -> bool, s: seq<T>, x: T)
    requires p(x)
    ensures multiset(Only(p, s))[x] == multiset(s)[x]
  {
    if s != [] {
      assert s == [s[0]] + s[1..];
      OnlyCount(p, s[1..], x);
    }
  }

  lemma {:induction false} OnlyAll<T>(p: T -> bool, s: seq<T>)
    ensures (forall x | x in s :: p(x)) ==> Only(p, s) == s
    ensures (forall x | x in s :: !p(x)) ==> Only(p, s) == []
  {
    if s != [] {
      OnlyAll(p, s[1..]);
    }
  }

  lemma {:induction false} ReplicasOfOneService(order: seq<string>, services: Services, name: string)
    requires forall n | n in order :: n in services
    requires forall i, j | 0 <= i < j < |order| :: order[i] != order[j]
    ensures Only(Named(name), Expand(order, services))
      == if name in order then Replicas(name, 0, services[name].instances) else []
  {
    if order != [] {
      var head := Replicas(order[0], 0, services[order[0]].instances);
      OnlyConcat(Named(name), head, Expand(order[1..], services));
      OnlyAll(Named(name), head);
      ReplicasOfOneService(order[1..], services, name);
      if name == order[0] {
        assert name !in order[1..];
      }
    }
  }

  /** Of every service, the skipping scheduler places exactly the replicas numbered 0, ..., k-1, once each. */
  lemma {:induction false} SkippingPlacesPrefixes(
    workers: seq<RawNode>, services: Dict<RawService>, name: string) returns (k: nat)
    requires services.Valid() && Skipping(workers, services).Some? && name in services.items
    ensures k <= ServicesOf(services)[name].instances
    ensures forall num: nat ::
      multiset(Flatten(Skipping(workers, services).value))[Instance(name, num)] == if num < k then 1 else 0
  {
    var demands, nodes, queue := ServicesOf(services), NodesOf(workers), TotalQueue(services);
    var count := demands[name].instances;
    ReplicasOfOneService(services.order, demands, name);
    SortIsStable(ServiceTotalOf(demands), ServiceTotal(demands, Instance(name, 0)), Named(name), AllReplicas(services));
    k := SkippedAreTheLastOnes(demands, nodes, queue, Empties(|nodes|), name, 0, count);
    var (final, skipped) := Lenient(demands, nodes, queue, Empties(|nodes|));
    forall num: nat ensures multiset(Flatten(final))[Instance(name, num)] == if num < k then 1 else 0 {
      var x := Instance(name, num);
      SkippingAccountsForAll(workers, services, x);
      OnlyCount(Named(name), skipped, x);
      ReplicasCount(name, k, count, x);
    }
  }
}
