/**
 The inputs of the three placement schedulers: worker capacities and a dictionary of services,
 as they arrive (possibly malformed) and as they are used once validated.
 */
module Workload {
  import opened Sums

  /** What a dictionary lookup of a numeric field can give. */
  datatype Field = Missing | NotANumber | Number(value: int)

  datatype RawNode = NotADict | NodeDict(cpu: Field, memory: Field)

  datatype RawService = NotADict | ServiceDict(cpu: Field, memory: Field, instances: Field)

  /** A Python dictionary: keys in insertion order. */
  datatype Dict<V> = Dict(order: seq<string>, items: map<string, V>) {
    ghost predicate Valid() {
      && (forall name :: name in order <==> name in items)
      && (forall i, j | 0 <= i < j < |order| :: order[i] != order[j])
    }
  }

  datatype Capacity = Capacity(cpu: nat, memory: nat)

  datatype Demand = Demand(cpu: nat, memory: nat, instances: nat)

  /** One replica to place: the pair `(service name, replica number)`. */
  datatype Instance = Instance(name: string, num: nat)

  type Services = map<string, Demand>

  type Placement = seq<seq<Instance>>

  // ---------- validation ----------

  predicate Amount(f: Field) {
    f.Number? && f.value >= 0
  }

  predicate GoodNode(n: RawNode) {
    n.NodeDict? && Amount(n.cpu) && Amount(n.memory)
  }

  predicate GoodService(s: RawService) {
    s.ServiceDict? && Amount(s.cpu) && Amount(s.memory) && s.instances.Number? && s.instances.value > 0
  }

  ghost predicate GoodNodes(nodes: seq<RawNode>) {
    forall i | 0 <= i < |nodes| :: GoodNode(nodes[i])
  }

  ghost predicate GoodServices(services: Dict<RawService>) {
    forall name | name in services.items :: GoodService(services.items[name])
  }

  function NodeOf(n: RawNode): Capacity
    requires GoodNode(n)
  {
    Capacity(n.cpu.value, n.memory.value)
  }

  function DemandOf(s: RawService): Demand
    requires GoodService(s)
  {
    Demand(s.cpu.value, s.memory.value, s.instances.value)
  }

  function NodesOf(nodes: seq<RawNode>): (capacities: seq<Capacity>)
    requires GoodNodes(nodes)
  {
    seq(|nodes|, i requires 0 <= i < |nodes| => NodeOf(nodes[i]))
  }

  function ServicesOf(services: Dict<RawService>): Services
    requires GoodServices(services)
  {
    map name | name in services.items :: DemandOf(services.items[name])
  }

  method CheckNodes(nodes: seq<RawNode>) returns (good: bool)
    ensures good == GoodNodes(nodes)
  {
    for i := 0 to |nodes|
      invariant forall j | 0 <= j < i :: GoodNode(nodes[j])
    {
      if !GoodNode(nodes[i]) {
        return false;
      }
    }
    return true;
  }

  method CheckServices(services: Dict<RawService>) returns (good: bool)
    requires services.Valid()
    ensures good == GoodServices(services)
  {
    for i := 0 to |services.order|
      invariant forall j | 0 <= j < i :: GoodService(services.items[services.order[j]])
    {
      if !GoodService(services.items[services.order[i]]) {
        return false;
      }
    }
    return true;
  }

  // ---------- demands ----------

  function Cpu(services: Services, x: Instance): nat {
    if x.name in services then services[x.name].cpu else 0
  }

  function Memory(services: Services, x: Instance): nat {
    if x.name in services then services[x.name].memory else 0
  }

  /** The combined cpu and memory demand of one replica. */
  function Size(services: Services, x: Instance): nat {
    Cpu(services, x) + Memory(services, x)
  }

  /** The combined demand of all replicas of x's service. */
  function ServiceTotal(services: Services, x: Instance): nat {
    if x.name in services then
      services[x.name].cpu * services[x.name].instances + services[x.name].memory * services[x.name].instances
    else 0
  }

  function CpuOf(services: Services): Instance -> nat { x => Cpu(services, x) }

  function MemoryOf(services: Services): Instance -> nat { x => Memory(services, x) }

  function SizeOf(services: Services): Instance -> nat { x => Size(services, x) }

  function ServiceTotalOf(services: Services): Instance -> nat { x => ServiceTotal(services, x) }

  lemma {:induction false} SizeIsCpuPlusMemory(services: Services, s: seq<Instance>)
    ensures Sum(SizeOf(services), s) == Sum(CpuOf(services), s) + Sum(MemoryOf(services), s)
  {
    if s != [] {
      SizeIsCpuPlusMemory(services, s[1..]);
    }
  }

  // ---------- expansion into replicas ----------

  /** Replicas lo, ..., hi-1 of one service. */
  function Replicas(name: string, lo: nat, hi: nat): (r: seq<Instance>)
    requires lo <= hi
  {
    seq(hi - lo, k requires 0 <= k => Instance(name, lo + k))
  }

  function Expand(order: seq<string>, services: Services): seq<Instance>
    requires forall name | name in order :: name in services
  {
    if order == [] then []
    else Replicas(order[0], 0, services[order[0]].instances) + Expand(order[1..], services)
  }

  lemma {:induction false} ExpandAppend(order: seq<string>, name: string, services: Services)
    requires forall n | n in order + [name] :: n in services
    ensures Expand(order + [name], services) == Expand(order, services) + Replicas(name, 0, services[name].instances)
  {
    if order == [] {
      assert [name][1..] == [];
    } else {
      assert (order + [name])[1..] == order[1..] + [name];
      ExpandAppend(order[1..], name, services);
    }
  }

  method ExpandAll(order: seq<string>, services: Services) returns (all: seq<Instance>)
    requires forall name | name in order :: name in services
    ensures all == Expand(order, services)
  {
    all := [];
    for i := 0 to |order|
      invariant all == Expand(order[..i], services)
    {
      var name := order[i];
      ghost var before := all;
      for k := 0 to services[name].instances
        invariant all == before + Replicas(name, 0, k)
      {
        all := all + [Instance(name, k)];
      }
      assert order[..i + 1] == order[..i] + [name];
      ExpandAppend(order[..i], name, services);
    }
    assert order[..|order|] == order;
  }

  /** The replica (name, num) is demanded. */
  ghost predicate Demanded(services: Services, x: Instance) {
    x.name in services && x.num < services[x.name].instances
  }

  /** Expansion demands every replica of every listed service exactly once and nothing else. */
  lemma {:induction false} ExpandCounts(order: seq<string>, services: Services, x: Instance)
    requires forall name | name in order :: name in services
    requires forall i, j | 0 <= i < j < |order| :: order[i] != order[j]
    ensures multiset(Expand(order, services))[x] == if x.name in order && Demanded(services, x) then 1 else 0
  {
    if order != [] {
      var head := Replicas(order[0], 0, services[order[0]].instances);
      ExpandCounts(order[1..], services, x);
      ReplicasCount(order[0], 0, services[order[0]].instances, x);
      assert multiset(head + Expand(order[1..], services)) == multiset(head) + multiset(Expand(order[1..], services));
    }
  }

  lemma {:induction false} ReplicasCount(name: string, lo: nat, hi: nat, x: Instance)
    requires lo <= hi
    ensures multiset(Replicas(name, lo, hi))[x] == if x.name == name && lo <= x.num < hi then 1 else 0
    decreases hi - lo
  {
    if lo < hi {
      assert Replicas(name, lo, hi) == [Instance(name, lo)] + Replicas(name, lo + 1, hi);
      ReplicasCount(name, lo + 1, hi, x);
    } else {
      assert Replicas(name, lo, hi) == [];
    }
  }

  ghost function AllReplicas(services: Dict<RawService>): seq<Instance>
    requires services.Valid() && GoodServices(services)
  {
    Expand(services.order, ServicesOf(services))
  }

  // ---------- capacity ----------

  function CpuUse(services: Services, placed: seq<Instance>): nat {
    Sum(CpuOf(services), placed)
  }

  function MemoryUse(services: Services, placed: seq<Instance>): nat {
    Sum(MemoryOf(services), placed)
  }

  function Load(services: Services, placed: seq<Instance>): nat {
    Sum(SizeOf(services), placed)
  }

  ghost predicate NoMemory(services: Services) {
    forall name | name in services :: services[name].memory == 0
  }

  lemma {:induction false} NoMemoryUse(services: Services, placed: seq<Instance>)
    requires NoMemory(services)
    ensures MemoryUse(services, placed) == 0 && CpuUse(services, placed) == Load(services, placed)
  {
    if placed != [] {
      NoMemoryUse(services, placed[1..]);
    }
  }

  ghost predicate WithinCapacity(services: Services, nodes: seq<Capacity>, placement: Placement) {
    |placement| == |nodes| &&
    forall i | 0 <= i < |nodes| ::
      CpuUse(services, placement[i]) <= nodes[i].cpu && MemoryUse(services, placement[i]) <= nodes[i].memory
  }

  /** The placement holds exactly the given replicas, on n nodes. */
  ghost predicate Places(placement: Placement, n: nat, items: seq<Instance>) {
    |placement| == n && multiset(Flatten(placement)) == multiset(items)
  }
}
