/**
 The placement rule shared by the three schedulers: each replica goes to the feasible node whose resulting
 cpu+memory usage is least, the lowest index on ties.  Two failure policies: Strict gives up, Lenient skips.
 */
module Greedy {
  import opened Wrappers
  import opened Sums
  import opened Workload
  import opened StableSort

  predicate Fits(services: Services, node: Capacity, placed: seq<Instance>, x: Instance) {
    && node.cpu >= CpuUse(services, placed) + Cpu(services, x)
    && node.memory >= MemoryUse(services, placed) + Memory(services, x)
  }

  /** b is the rule's choice among the first k nodes; -1 when x fits on none of them. */
  ghost predicate IsChoice(services: Services, nodes: seq<Capacity>, placement: Placement, x: Instance, k: nat, b: int)
    requires |placement| == |nodes| && k <= |nodes|
  {
    if b == -1 then
      forall i | 0 <= i < k :: !Fits(services, nodes[i], placement[i], x)
    else
      && 0 <= b < k
      && Fits(services, nodes[b], placement[b], x)
      && forall i | 0 <= i < k && Fits(services, nodes[i], placement[i], x) ::
           Load(services, placement[b]) < Load(services, placement[i]) ||
           (Load(services, placement[b]) == Load(services, placement[i]) && b <= i)
  }

  function ChooseAmong(services: Services, nodes: seq<Capacity>, placement: Placement, x: Instance, k: nat): (b: int)
    requires |placement| == |nodes| && k <= |nodes|
    ensures IsChoice(services, nodes, placement, x, k, b)
  {
    if k == 0 then -1
    else
      var b := ChooseAmong(services, nodes, placement, x, k - 1);
      if Fits(services, nodes[k - 1], placement[k - 1], x) &&
         (b == -1 || Load(services, placement[k - 1]) < Load(services, placement[b]))
      then k - 1
      else b
  }

  function Choose(services: Services, nodes: seq<Capacity>, placement: Placement, x: Instance): (b: int)
    requires |placement| == |nodes|
    ensures IsChoice(services, nodes, placement, x, |nodes|, b)
  {
    ChooseAmong(services, nodes, placement, x, |nodes|)
  }

  /** The rule leaves no freedom. */
  lemma {:induction false} ChoiceIsUnique(
    services: Services, nodes: seq<Capacity>, placement: Placement, x: Instance, b: int)
    requires |placement| == |nodes|
    ensures IsChoice(services, nodes, placement, x, |nodes|, b) <==> b == Choose(services, nodes, placement, x)
  {
    var c := Choose(services, nodes, placement, x);
    if IsChoice(services, nodes, placement, x, |nodes|, b) && b != -1 {
      assert Fits(services, nodes[b], placement[b], x);
      assert c != -1 && Fits(services, nodes[c], placement[c], x);
    }
  }

  method SumBy(f: Instance -> nat, placed: seq<Instance>) returns (total: nat)
    ensures total == Sum(f, placed)
  {
    total := 0;
    for i := 0 to |placed|
      invariant total == Sum(f, placed[..i])
    {
      total := total + f(placed[i]);
      assert placed[..i + 1] == placed[..i] + [placed[i]];
      SumAppend(f, placed[..i], placed[i]);
    }
    assert placed[..|placed|] == placed;
  }

  /** The schedulers' inner loop. */
  method FindBestNode(services: Services, nodes: seq<Capacity>, placement: Placement, x: Instance) returns (best: int)
    requires |placement| == |nodes|
    ensures best == Choose(services, nodes, placement, x)
  {
    best := -1;
    var minUsage := 0;  // infinite while best == -1
    for i := 0 to |nodes|
      invariant best == ChooseAmong(services, nodes, placement, x, i)
      invariant best != -1 ==> minUsage == Load(services, placement[best]) + Size(services, x)
    {
      var cpuUsage := SumBy(CpuOf(services), placement[i]);
      var memoryUsage := SumBy(MemoryOf(services), placement[i]);
      SizeIsCpuPlusMemory(services, placement[i]);
      if nodes[i].cpu >= cpuUsage + Cpu(services, x) && nodes[i].memory >= memoryUsage + Memory(services, x) {
        var usage := cpuUsage + Cpu(services, x) + memoryUsage + Memory(services, x);
        if best == -1 || usage < minUsage {
          minUsage := usage;
          best := i;
        }
      }
    }
  }

  function Put(placement: Placement, b: nat, x: Instance): Placement
    requires b < |placement|
  {
    placement[b := placement[b] + [x]]
  }

  /** Place the queue in order; None as soon as one replica fits nowhere. */
  function Strict(services: Services, nodes: seq<Capacity>, queue: seq<Instance>, placement: Placement)
    : (r: Option<Placement>)
    requires |placement| == |nodes|
    ensures r.Some? ==> |r.value| == |nodes|
    decreases |queue|
  {
    if queue == [] then Some(placement)
    else
      var b := Choose(services, nodes, placement, queue[0]);
      if b == -1 then None else Strict(services, nodes, queue[1..], Put(placement, b, queue[0]))
  }

  lemma {:induction false} StrictInTwoParts(
    services: Services, nodes: seq<Capacity>, first: seq<Instance>, second: seq<Instance>, placement: Placement)
    requires |placement| == |nodes| && Strict(services, nodes, first, placement).Some?
    ensures Strict(services, nodes, first + second, placement)
      == Strict(services, nodes, second, Strict(services, nodes, first, placement).value)
    decreases |first|
  {
    if first == [] {
      assert first + second == second;
    } else {
      var b := Choose(services, nodes, placement, first[0]);
      assert (first + second)[1..] == first[1..] + second;
      StrictInTwoParts(services, nodes, first[1..], second, Put(placement, b, first[0]));
    }
  }

  lemma {:induction false} StrictOfOne(services: Services, nodes: seq<Capacity>, x: Instance, placement: Placement)
    requires |placement| == |nodes|
    ensures var b := Choose(services, nodes, placement, x);
      Strict(services, nodes, [x], placement) == if b == -1 then None else Some(Put(placement, b, x))
  {
    assert [x][1..] == [];
  }

  /** Place the queue in order, leaving out what does not fit when its turn comes. */
  function Lenient(services: Services, nodes: seq<Capacity>, queue: seq<Instance>, placement: Placement)
    : (r: (Placement, seq<Instance>))
    requires |placement| == |nodes|
    ensures |r.0| == |nodes|
    decreases |queue|
  {
    if queue == [] then (placement, [])
    else
      var b := Choose(services, nodes, placement, queue[0]);
      if b == -1 then
        var (final, skipped) := Lenient(services, nodes, queue[1..], placement);
        (final, [queue[0]] + skipped)
      else Lenient(services, nodes, queue[1..], Put(placement, b, queue[0]))
  }

  ghost predicate FitsNowhere(services: Services, nodes: seq<Capacity>, placement: Placement, x: Instance)
    requires |placement| == |nodes|
  {
    forall i | 0 <= i < |nodes| :: !Fits(services, nodes[i], placement[i], x)
  }

  // ---------- capacity safety and coverage ----------

  lemma {:induction false} PutIsSafe(services: Services, nodes: seq<Capacity>, placement: Placement, x: Instance)
    requires WithinCapacity(services, nodes, placement)
    requires Choose(services, nodes, placement, x) != -1
    ensures WithinCapacity(services, nodes, Put(placement, Choose(services, nodes, placement, x), x))
  {
    var b := Choose(services, nodes, placement, x);
    SumAppend(CpuOf(services), placement[b], x);
    SumAppend(MemoryOf(services), placement[b], x);
  }

  lemma {:induction false} LenientIsSafe(
    services: Services, nodes: seq<Capacity>, queue: seq<Instance>, placement: Placement)
    requires WithinCapacity(services, nodes, placement)
    ensures WithinCapacity(services, nodes, Lenient(services, nodes, queue, placement).0)
    decreases |queue|
  {
    if queue != [] {
      var b := Choose(services, nodes, placement, queue[0]);
      if b == -1 {
        LenientIsSafe(services, nodes, queue[1..], placement);
      } else {
        PutIsSafe(services, nodes, placement, queue[0]);
        LenientIsSafe(services, nodes, queue[1..], Put(placement, b, queue[0]));
      }
    }
  }

  /** What is placed plus what is skipped is exactly what was there plus the queue. */
  lemma {:induction false} LenientKeepsEverything(
    services: Services, nodes: seq<Capacity>, queue: seq<Instance>, placement: Placement)
    requires |placement| == |nodes|
    ensures var (final, skipped) := Lenient(services, nodes, queue, placement);
      multiset(Flatten(final) + skipped) == multiset(Flatten(placement) + queue)
    decreases |queue|
  {
    if queue != [] {
      var b := Choose(services, nodes, placement, queue[0]);
      var (final, skipped) := Lenient(services, nodes, queue, placement);
      if b == -1 {
        LenientKeepsEverything(services, nodes, queue[1..], placement);
        MoveHead(Flatten(final), skipped);
        MoveHead(Flatten(placement), queue);
      } else {
        FlattenAppend(placement, b, queue[0]);
        LenientKeepsEverything(services, nodes, queue[1..], Put(placement, b, queue[0]));
        MoveHead(Flatten(placement), queue);
      }
    }
  }

  lemma {:induction false} MoveHead<T>(s: seq<T>, t: seq<T>)
    requires t != []
    ensures multiset(s + t) == multiset(s + t[1..]) + multiset{t[0]}
  {
    assert t == [t[0]] + t[1..];
  }

  /** The strict policy succeeds exactly when the lenient one skips nothing, and then they agree. */
  lemma {:induction false} StrictRefinesLenient(
    services: Services, nodes: seq<Capacity>, queue: seq<Instance>, placement: Placement)
    requires |placement| == |nodes|
    ensures var (final, skipped) := Lenient(services, nodes, queue, placement);
      Strict(services, nodes, queue, placement) == if skipped == [] then Some(final) else None
    decreases |queue|
  {
    if queue != [] {
      var b := Choose(services, nodes, placement, queue[0]);
      if b != -1 {
        StrictRefinesLenient(services, nodes, queue[1..], Put(placement, b, queue[0]));
      }
    }
  }

  /** The strict policy fails exactly when, at some turn, the replica whose turn it is fits on no node. */
  lemma {:induction false} StrictFailure(
    services: Services, nodes: seq<Capacity>, queue: seq<Instance>, placement: Placement)
    requires |placement| == |nodes|
    ensures Strict(services, nodes, queue, placement) == None <==>
      exists j :: 0 <= j < |queue| && StuckAt(services, nodes, queue, placement, j)
    decreases |queue|
  {
    if queue != [] {
      var b := Choose(services, nodes, placement, queue[0]);
      if b == -1 {
        assert StuckAt(services, nodes, queue, placement, 0);
      } else {
        var next := Put(placement, b, queue[0]);
        StrictFailure(services, nodes, queue[1..], next);
        assert !StuckAt(services, nodes, queue, placement, 0) by {
          assert queue[..0] == [];
        }
        forall j | 0 <= j < |queue| - 1
          ensures StuckAt(services, nodes, queue[1..], next, j) <==> StuckAt(services, nodes, queue, placement, j + 1)
        {
          assert queue[..j + 1][1..] == queue[1..][..j];
        }
        if j :| 0 <= j < |queue| && StuckAt(services, nodes, queue, placement, j) {
          assert StuckAt(services, nodes, queue[1..], next, j - 1);
        }
      }
    }
  }

  /** The first j replicas are placed and replica j fits nowhere. */
  ghost predicate StuckAt(
    services: Services, nodes: seq<Capacity>, queue: seq<Instance>, placement: Placement, j: nat)
    requires |placement| == |nodes| && j < |queue|
  {
    var soFar := Strict(services, nodes, queue[..j], placement);
    soFar.Some? && FitsNowhere(services, nodes, soFar.value, queue[j])
  }

  // ---------- what the lenient policy skips ----------

  /** x keeps fitting nowhere while more replicas are placed. */
  lemma {:induction false} NowhereStaysNowhere(
    services: Services, nodes: seq<Capacity>, queue: seq<Instance>, placement: Placement, x: Instance)
    requires |placement| == |nodes|
    requires FitsNowhere(services, nodes, placement, x)
    ensures FitsNowhere(services, nodes, Lenient(services, nodes, queue, placement).0, x)
    decreases |queue|
  {
    if queue != [] {
      var b := Choose(services, nodes, placement, queue[0]);
      if b == -1 {
        NowhereStaysNowhere(services, nodes, queue[1..], placement, x);
      } else {
        SumAppend(CpuOf(services), placement[b], queue[0]);
        SumAppend(MemoryOf(services), placement[b], queue[0]);
        NowhereStaysNowhere(services, nodes, queue[1..], Put(placement, b, queue[0]), x);
      }
    }
  }

  /** Maximality: a skipped replica fits on no node of the final placement. */
  lemma {:induction false} SkippedStillFitsNowhere(
    services: Services, nodes: seq<Capacity>, queue: seq<Instance>, placement: Placement, x: Instance)
    requires |placement| == |nodes|
    requires x in Lenient(services, nodes, queue, placement).1
    ensures FitsNowhere(services, nodes, Lenient(services, nodes, queue, placement).0, x)
    decreases |queue|
  {
    var b := Choose(services, nodes, placement, queue[0]);
    if b == -1 {
      if x == queue[0] {
        NowhereStaysNowhere(services, nodes, queue[1..], placement, x);
      } else {
        SkippedStillFitsNowhere(services, nodes, queue[1..], placement, x);
      }
    } else {
      SkippedStillFitsNowhere(services, nodes, queue[1..], Put(placement, b, queue[0]), x);
    }
  }

  function Named(name: string): Instance -> bool {
    (x: Instance) => x.name == name
  }

  /** Once one replica of a service fits nowhere, every later one of that service is skipped. */
  lemma {:induction false} RestOfServiceSkipped(
    services: Services, nodes: seq<Capacity>, queue: seq<Instance>, placement: Placement, x: Instance)
    requires |placement| == |nodes|
    requires FitsNowhere(services, nodes, placement, x)
    ensures Only(Named(x.name), Lenient(services, nodes, queue, placement).1) == Only(Named(x.name), queue)
    decreases |queue|
  {
    if queue != [] {
      var b := Choose(services, nodes, placement, queue[0]);
      if b == -1 {
        RestOfServiceSkipped(services, nodes, queue[1..], placement, x);
        var rest := Lenient(services, nodes, queue[1..], placement).1;
        assert ([queue[0]] + rest)[1..] == rest;
      } else {
        assert queue[0].name != x.name;
        SumAppend(CpuOf(services), placement[b], queue[0]);
        SumAppend(MemoryOf(services), placement[b], queue[0]);
        RestOfServiceSkipped(services, nodes, queue[1..], Put(placement, b, queue[0]), x);
      }
    }
  }

  /** When a service's replicas queue up in ascending order, the skipped ones are a final run k, ..., hi-1. */
  lemma {:induction false} SkippedAreTheLastOnes(
    services: Services, nodes: seq<Capacity>, queue: seq<Instance>, placement: Placement,
    name: string, lo: nat, hi: nat)
    returns (k: nat)
    requires |placement| == |nodes|
    requires lo <= hi && Only(Named(name), queue) == Replicas(name, lo, hi)
    ensures lo <= k <= hi
    ensures Only(Named(name), Lenient(services, nodes, queue, placement).1) == Replicas(name, k, hi)
    decreases |queue|
  {
    if queue == [] {
      assert |Replicas(name, lo, hi)| == 0;
      k := hi;
    } else {
      var x := queue[0];
      var b := Choose(services, nodes, placement, x);
      var rest := Only(Named(name), queue[1..]);
      if x.name != name {
        if b == -1 {
          k := SkippedAreTheLastOnes(services, nodes, queue[1..], placement, name, lo, hi);
          var skipped := Lenient(services, nodes, queue[1..], placement).1;
          assert ([x] + skipped)[1..] == skipped;
        } else {
          k := SkippedAreTheLastOnes(services, nodes, queue[1..], Put(placement, b, x), name, lo, hi);
        }
      } else {
        assert Replicas(name, lo, hi) == [x] + rest;
        assert x == Replicas(name, lo, hi)[0] == Instance(name, lo);
        assert rest == Replicas(name, lo, hi)[1..] == Replicas(name, lo + 1, hi);
        if b == -1 {
          k := lo;
          RestOfServiceSkipped(services, nodes, queue, placement, x);
        } else {
          k := SkippedAreTheLastOnes(services, nodes, queue[1..], Put(placement, b, x), name, lo + 1, hi);
        }
      }
    }
  }
}
