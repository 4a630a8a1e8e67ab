/** `calculate_nodes_needed`: a volume bound on the number of default nodes. */
module NodeCount {
  import opened Wrappers
  import opened Sums
  import opened Workload

  /** BadEntry stands for the KeyError or TypeError of a malformed entry. */
  datatype PythonError = AttributeError | BadEntry

  const DEFAULT_NODE := Capacity(20, 24)

  /** Python's `int(r)` truncates toward zero. */
  function Truncate(r: real): int {
    if r >= 0.0 then r.Floor else -(-r).Floor
  }

  function NodesFor(cpu: int, memory: int): int {
    var nodesForCpu := cpu as real / DEFAULT_NODE.cpu as real;
    var nodesForMemory := memory as real / DEFAULT_NODE.memory as real;
    var needed := if nodesForMemory > nodesForCpu then nodesForMemory else nodesForCpu;
    if needed == Truncate(needed) as real then Truncate(needed) else Truncate(needed) + 1
  }

  predicate Numeric(s: RawService) {
    s.ServiceDict? && s.cpu.Number? && s.memory.Number? && s.instances.Number?
  }

  ghost predicate AllNumeric(clusters: Dict<RawService>) {
    forall name | name in clusters.items :: Numeric(clusters.items[name])
  }

  function CpuDemand(order: seq<string>, items: map<string, RawService>): int
    requires forall name | name in order :: name in items && Numeric(items[name])
  {
    if order == [] then 0
    else
      assert order[|order| - 1] in order && Numeric(items[order[|order| - 1]]);
      var last := items[order[|order| - 1]];
      CpuDemand(order[..|order| - 1], items) + last.cpu.value * last.instances.value
  }

  function MemoryDemand(order: seq<string>, items: map<string, RawService>): int
    requires forall name | name in order :: name in items && Numeric(items[name])
  {
    if order == [] then 0
    else
      assert order[|order| - 1] in order && Numeric(items[order[|order| - 1]]);
      var last := items[order[|order| - 1]];
      MemoryDemand(order[..|order| - 1], items) + last.memory.value * last.instances.value
  }

  method CalculateNodesNeeded(workers: seq<RawNode>, clusters: Dict<RawService>) returns (r: Result<int, PythonError>)
    requires clusters.Valid()
    ensures clusters.order == [] ==> r == Failure(AttributeError)
    ensures clusters.order != [] && workers != [] ==> r == Success(|workers|)
    ensures clusters.order != [] && workers == [] && !AllNumeric(clusters) ==> r == Failure(BadEntry)
    ensures clusters.order != [] && workers == [] && AllNumeric(clusters) ==>
      r == Success(NodesFor(CpuDemand(clusters.order, clusters.items), MemoryDemand(clusters.order, clusters.items)))
  {
    if clusters.order == [] {
      return Failure(AttributeError);
    }
    if workers != [] {
      return Success(|workers|);
    }
    var cpu, memory := 0, 0;
    for i := 0 to |clusters.order|
      invariant forall j | 0 <= j < i :: Numeric(clusters.items[clusters.order[j]])
      invariant cpu == CpuDemand(clusters.order[..i], clusters.items)
      invariant memory == MemoryDemand(clusters.order[..i], clusters.items)
    {
      var values := clusters.items[clusters.order[i]];
      if !Numeric(values) {
        return Failure(BadEntry);
      }
      assert clusters.order[..i + 1][..i] == clusters.order[..i];
      cpu := cpu + values.cpu.value * values.instances.value;
      memory := memory + values.memory.value * values.instances.value;
    }
    assert clusters.order[..|clusters.order|] == clusters.order;
    return Success(NodesFor(cpu, memory));
  }

  /** For non-negative totals the rounding is an exact ceiling: the fewest nodes whose volume covers both totals. */
  lemma {:induction false} NodesForIsLeast(cpu: nat, memory: nat, k: int)
    ensures NodesFor(cpu, memory) <= k <==> cpu <= 20 * k && memory <= 24 * k
  {
    var nodesForCpu := cpu as real / 20.0;
    var nodesForMemory := memory as real / 24.0;
    assert nodesForCpu <= k as real <==> cpu <= 20 * k;
    assert nodesForMemory <= k as real <==> memory <= 24 * k;
  }

  /** For any totals: that least number, but one more for a negative total that is no multiple. */
  lemma {:induction false} NodesForAny(cpu: int, memory: int, least: int)
    requires forall k: int :: cpu <= 20 * k && memory <= 24 * k <==> least <= k
    ensures NodesFor(cpu, memory)
         == if cpu > 0 || memory > 0 || cpu == 20 * least || memory == 24 * least then least else least + 1
  {
    assert cpu <= 20 * least && memory <= 24 * least;
    assert !(cpu <= 20 * (least - 1) && memory <= 24 * (least - 1));
  }

  /** The totals add up cpu * instances and memory * instances, entry by entry. */
  lemma {:induction false} DemandAppend(order: seq<string>, name: string, items: map<string, RawService>)
    requires forall n | n in order + [name] :: n in items && Numeric(items[n])
    ensures CpuDemand([], items) == 0 == MemoryDemand([], items)
    ensures CpuDemand(order + [name], items)
         == CpuDemand(order, items) + items[name].cpu.value * items[name].instances.value
    ensures MemoryDemand(order + [name], items)
         == MemoryDemand(order, items) + items[name].memory.value * items[name].instances.value
  {
    assert (order + [name])[..|order|] == order;
  }

  /** The demand totals are those of the expanded replicas. */
  lemma {:induction false} DemandOfReplicas(order: seq<string>, clusters: Dict<RawService>)
    requires GoodServices(clusters)
    requires forall name | name in order :: name in clusters.items
    ensures CpuDemand(order, clusters.items) == CpuUse(ServicesOf(clusters), Expand(order, ServicesOf(clusters)))
    ensures MemoryDemand(order, clusters.items) == MemoryUse(ServicesOf(clusters), Expand(order, ServicesOf(clusters)))
  {
    if order != [] {
      var services := ServicesOf(clusters);
      var front, name := order[..|order| - 1], order[|order| - 1];
      assert order == front + [name];
      DemandOfReplicas(front, clusters);
      ExpandAppend(front, name, services);
      var count := services[name].instances;
      SumConcat(CpuOf(services), Expand(front, services), Replicas(name, 0, count));
      SumConcat(MemoryOf(services), Expand(front, services), Replicas(name, 0, count));
      SumOfReplicas(services, name, count);
    }
  }

  lemma {:induction false} SumOfReplicas(services: Services, name: string, count: nat)
    requires name in services
    ensures CpuUse(services, Replicas(name, 0, count)) == services[name].cpu * count
    ensures MemoryUse(services, Replicas(name, 0, count)) == services[name].memory * count
  {
    if count > 0 {
      SumOfReplicas(services, name, count - 1);
      assert services[name].cpu * count == services[name].cpu * (count - 1) + services[name].cpu;
      assert services[name].memory * count == services[name].memory * (count - 1) + services[name].memory;
      assert Replicas(name, 0, count) == Replicas(name, 0, count - 1) + [Instance(name, count - 1)];
      SumAppend(CpuOf(services), Replicas(name, 0, count - 1), Instance(name, count - 1));
      SumAppend(MemoryOf(services), Replicas(name, 0, count - 1), Instance(name, count - 1));
    }
  }

  /** The number `calculate_nodes_needed` returns when no workers are given. */
  ghost function Needed(clusters: Dict<RawService>): int
    requires clusters.Valid() && GoodServices(clusters)
  {
    NodesFor(CpuDemand(clusters.order, clusters.items), MemoryDemand(clusters.order, clusters.items))
  }

  /** No capacity-respecting placement of every replica uses fewer default nodes than the computed number. */
  lemma {:induction false} NeededIsLowerBound(clusters: Dict<RawService>, placement: Placement, k: nat)
    requires clusters.Valid() && GoodServices(clusters)
    requires Places(placement, k, AllReplicas(clusters))
    requires WithinCapacity(ServicesOf(clusters), seq(k, _ => DEFAULT_NODE), placement)
    ensures k >= Needed(clusters)
  {
    var services, all := ServicesOf(clusters), AllReplicas(clusters);
    DemandOfReplicas(clusters.order, clusters);
    TotalAtMost(CpuOf(services), placement, 20);
    TotalAtMost(MemoryOf(services), placement, 24);
    TotalOfPermutation(CpuOf(services), placement, all);
    TotalOfPermutation(MemoryOf(services), placement, all);
    NodesForIsLeast(CpuUse(services, all), MemoryUse(services, all), k);
  }
}
