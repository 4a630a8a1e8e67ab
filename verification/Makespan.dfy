/**
 How good the greedy placement is when no capacity binds: Graham's list-scheduling bound for any queue order,
 and Graham's 4/3 - 1/(3n) bound when the queue is sorted by replica size, against every other assignment.
 */
module Makespan {
  import opened Sums
  import opened StableSort
  import opened Workload
  import opened Greedy

  /** Every node could hold everything that is placed and everything still queued. */
  ghost predicate Roomy(services: Services, nodes: seq<Capacity>, placement: Placement, queue: seq<Instance>) {
    forall i | 0 <= i < |nodes| ::
      && Total(CpuOf(services), placement) + Sum(CpuOf(services), queue) <= nodes[i].cpu
      && Total(MemoryOf(services), placement) + Sum(MemoryOf(services), queue) <= nodes[i].memory
  }

  /** b is the least loaded node. */
  ghost predicate IsLeast(services: Services, placement: Placement, b: int) {
    0 <= b < |placement| &&
    forall i | 0 <= i < |placement| :: Load(services, placement[b]) <= Load(services, placement[i])
  }

  lemma {:induction false} RoomyChoosesLeast(
    services: Services, nodes: seq<Capacity>, placement: Placement, queue: seq<Instance>)
    requires |placement| == |nodes| > 0 && queue != []
    requires Roomy(services, nodes, placement, queue)
    ensures var b := Choose(services, nodes, placement, queue[0]);
      IsLeast(services, placement, b) && Roomy(services, nodes, Put(placement, b, queue[0]), queue[1..])
  {
    forall i | 0 <= i < |nodes| ensures Fits(services, nodes[i], placement[i], queue[0]) {
      TotalMember(CpuOf(services), placement, i);
      TotalMember(MemoryOf(services), placement, i);
    }
    var b := Choose(services, nodes, placement, queue[0]);
    assert Fits(services, nodes[0], placement[0], queue[0]);
    TotalAppend(CpuOf(services), placement, b, queue[0]);
    TotalAppend(MemoryOf(services), placement, b, queue[0]);
  }

  // ---------- multiplication kept away from the solver's nonlinear arithmetic ----------

  /** k * x, by repeated addition. */
  function Times(k: nat, x: nat): nat {
    if k == 0 then 0 else x + Times(k - 1, x)
  }

  lemma {:induction false} TimesAdds(j: nat, k: nat, x: nat)
    ensures Times(j + k, x) == Times(j, x) + Times(k, x)
  {
    if j > 0 {
      TimesAdds(j - 1, k, x);
    }
  }

  lemma {:induction false} TimesIsProduct(k: nat, x: nat)
    ensures Times(k, x) == k * x
  {
    if k > 0 {
      TimesIsProduct(k - 1, x);
      assert k * x == (k - 1) * x + x;
    }
  }

  // ---------- any order: the loads stay within one replica of each other ----------

  ghost predicate GapAtMost(services: Services, placement: Placement, gap: nat) {
    forall i, j | 0 <= i < |placement| && 0 <= j < |placement| ::
      Load(services, placement[i]) <= Load(services, placement[j]) + gap
  }

  lemma {:induction false} GreedyKeepsGap(
    services: Services, nodes: seq<Capacity>, placement: Placement, queue: seq<Instance>, largest: nat)
    requires |placement| == |nodes| > 0
    requires Roomy(services, nodes, placement, queue)
    requires GapAtMost(services, placement, largest)
    requires forall x | x in queue :: Size(services, x) <= largest
    ensures Strict(services, nodes, queue, placement).Some?
    ensures GapAtMost(services, Strict(services, nodes, queue, placement).value, largest)
    decreases |queue|
  {
    if queue != [] {
      RoomyChoosesLeast(services, nodes, placement, queue);
      var b := Choose(services, nodes, placement, queue[0]);
      SumAppend(SizeOf(services), placement[b], queue[0]);
      GreedyKeepsGap(services, nodes, Put(placement, b, queue[0]), queue[1..], largest);
    }
  }

  lemma {:induction false} TotalAtLeastBut<T>(f: T -> nat, lists: seq<seq<T>>, i: nat, bound: nat)
    requires i < |lists|
    requires forall j | 0 <= j < |lists| :: Sum(f, lists[j]) >= bound
    ensures Total(f, lists) >= Sum(f, lists[i]) + (|lists| - 1) * bound
  {
    forall j | 0 <= j < |lists[1..]| ensures Sum(f, lists[1..][j]) >= bound {
      assert lists[1..][j] == lists[j + 1];
    }
    if i == 0 {
      TotalAtLeast(f, lists[1..], bound);
    } else {
      TotalAtLeastBut(f, lists[1..], i - 1, bound);
      assert (|lists| - 1) * bound == (|lists[1..]| - 1) * bound + bound;
    }
  }

  lemma {:induction false} TotalBelow<T>(f: T -> nat, lists: seq<seq<T>>, i: nat, bound: nat)
    requires i < |lists| && Sum(f, lists[i]) < bound
    requires forall j | 0 <= j < |lists| :: Sum(f, lists[j]) <= bound
    ensures Total(f, lists) < Times(|lists|, bound)
  {
    forall j | 0 <= j < |lists[1..]| ensures Sum(f, lists[1..][j]) <= bound {
      assert lists[1..][j] == lists[j + 1];
    }
    if i == 0 {
      TotalAtMost(f, lists[1..], bound);
      TimesIsProduct(|lists| - 1, bound);
    } else {
      TotalBelow(f, lists[1..], i - 1, bound);
    }
  }

  lemma {:induction false} TotalExactly<T>(f: T -> nat, lists: seq<seq<T>>, bound: nat)
    requires forall j | 0 <= j < |lists| :: Sum(f, lists[j]) == bound
    ensures Total(f, lists) == Times(|lists|, bound)
  {
    if lists != [] {
      forall j | 0 <= j < |lists[1..]| ensures Sum(f, lists[1..][j]) == bound {
        assert lists[1..][j] == lists[j + 1];
      }
      TotalExactly(f, lists[1..], bound);
    }
  }

  /** The load is at most the average of the total over n nodes plus (n-1)/n times the gap. */
  ghost predicate NearAverage(n: nat, load: nat, total: nat, gap: nat) {
    n > 0 && Times(n, load) <= total + Times(n - 1, gap)
  }

  lemma {:induction false} GapBoundsLoad(services: Services, placement: Placement, gap: nat, i: nat)
    requires i < |placement|
    requires GapAtMost(services, placement, gap)
    ensures NearAverage(|placement|, Load(services, placement[i]), Total(SizeOf(services), placement), gap)
  {
    var n, load := |placement|, Load(services, placement[i]);
    var floor := if load >= gap then load - gap else 0;
    TotalAtLeastBut(SizeOf(services), placement, i, floor);
    FloorCase(n, load, gap, floor);
    TimesIsProduct(n, load);
    TimesIsProduct(n - 1, gap);
  }

  lemma {:induction false} MulMono(k: nat, a: int, b: int)
    requires a <= b
    ensures k * a <= k * b
  {
  }

  lemma {:induction false} MulCancel(k: int, a: int, b: int)
    requires k > 0 && k * a == k * b
    ensures a == b
  {
  }

  /** At least b against at most a, with a ratio of at most b/a: exactly b against a. */
  lemma {:induction false} RatioIsReached(a: nat, b: nat, load: nat, other: nat)
    requires a > 0 && b > 0 && load >= b && other <= a && a * load <= b * other
    ensures load == b && other == a
  {
    MulMono(a, b, load);
    MulMono(b, other, a);
    MulCancel(a, load, b);
    MulCancel(b, other, a);
  }

  lemma {:induction false} FloorCase(n: nat, load: nat, gap: nat, floor: nat)
    requires n > 0 && floor >= load - gap
    ensures n * load <= load + (n - 1) * floor + (n - 1) * gap
  {
    var k := n - 1;
    MulMono(k, load, floor + gap);
    assert k * (floor + gap) == k * floor + k * gap;
    assert n * load == k * load + load;
  }

  // ---------- size order: the weight argument ----------

  /** 0 for replicas smaller than p, 2 for those that cannot share a node with one of size p, 1 otherwise. */
  function Weight(services: Services, p: nat, limit: nat): Instance -> nat {
    x =>
      if Size(services, x) < p then 0
      else if Size(services, x) + p > limit then 2
      else 1
  }

  lemma {:induction false} WeightZero(services: Services, p: nat, limit: nat, s: seq<Instance>)
    requires Load(services, s) < p
    ensures Sum(Weight(services, p, limit), s) == 0
  {
    if s != [] {
      WeightZero(services, p, limit, s[1..]);
    }
  }

  lemma {:induction false} WeightOne(services: Services, p: nat, limit: nat, s: seq<Instance>)
    requires 3 * p > limit
    requires Load(services, s) + p <= limit
    ensures Sum(Weight(services, p, limit), s) <= 1
  {
    if s != [] {
      if Size(services, s[0]) < p {
        WeightOne(services, p, limit, s[1..]);
      } else {
        WeightZero(services, p, limit, s[1..]);
      }
    }
  }

  /** A node loaded to at most the limit carries weight at most 2 when p exceeds a third of the limit. */
  lemma {:induction false} WeightTwo(services: Services, p: nat, limit: nat, s: seq<Instance>)
    requires 3 * p > limit
    requires Load(services, s) <= limit
    ensures Sum(Weight(services, p, limit), s) <= 2
  {
    if s != [] {
      if Size(services, s[0]) < p {
        WeightTwo(services, p, limit, s[1..]);
      } else if Size(services, s[0]) + p > limit {
        WeightZero(services, p, limit, s[1..]);
      } else {
        WeightOne(services, p, limit, s[1..]);
      }
    }
  }

  /** A node holding only replicas of size at least p and of weight at most 1 has room for p under the limit. */
  lemma {:induction false} LightNodeHasRoom(services: Services, p: nat, limit: nat, s: seq<Instance>)
    requires p <= limit
    requires forall x | x in s :: Size(services, x) >= p
    requires Sum(Weight(services, p, limit), s) <= 1
    ensures Load(services, s) + p <= limit
  {
    if s != [] {
      var w, rest := Weight(services, p, limit), s[1..];
      assert s[0] in s && w(s[0]) >= 1;
      assert Sum(w, s) == w(s[0]) + Sum(w, rest) && rest == [];
      assert Load(services, s) == Size(services, s[0]) + Load(services, rest);
    }
  }

  ghost predicate AllAtMost(services: Services, placement: Placement, limit: nat) {
    forall i | 0 <= i < |placement| :: Load(services, placement[i]) <= limit
  }

  /** x takes part in alt, whose loads are at most the limit. */
  lemma {:induction false} PlacedWithinLimit(services: Services, alt: Placement, x: Instance, limit: nat)
    requires x in Flatten(alt) && AllAtMost(services, alt, limit)
    ensures Size(services, x) <= limit
  {
    InFlatten(alt, x);
    var i :| 0 <= i < |alt| && x in alt[i];
    SumMember(SizeOf(services), alt[i], x);
  }

  /** If x exceeds a third of the limit, some node has room for it under the limit. */
  lemma {:induction false} SomeNodeIsLight(
    services: Services, placement: Placement, queue: seq<Instance>, alt: Placement, limit: nat)
    returns (i: nat)
    requires queue != [] && |alt| == |placement| > 0
    requires multiset(Flatten(alt)) == multiset(Flatten(placement) + queue)
    requires AllAtMost(services, alt, limit)
    requires 3 * Size(services, queue[0]) > limit
    requires forall y | y in Flatten(placement) :: Size(services, y) >= Size(services, queue[0])
    ensures i < |placement| && Load(services, placement[i]) + Size(services, queue[0]) <= limit
  {
    var p := Size(services, queue[0]);
    var w := Weight(services, p, limit);
    var n := |placement|;
    assert queue[0] in multiset(Flatten(placement) + queue);
    PlacedWithinLimit(services, alt, queue[0], limit);
    forall j | 0 <= j < n ensures Sum(w, alt[j]) <= 2 {
      WeightTwo(services, p, limit, alt[j]);
    }
    TotalAtMost(w, alt, 2);
    TotalOfPermutation(w, alt, Flatten(placement) + queue);
    SumConcat(w, Flatten(placement), queue);
    TotalIsSumOfFlatten(w, placement);
    assert w(queue[0]) >= 1 && Total(w, placement) <= 2 * n - 1;
    if forall j | 0 <= j < n :: Sum(w, placement[j]) >= 2 {
      TotalAtLeast(w, placement, 2);
      assert false;
    }
    i :| 0 <= i < n && Sum(w, placement[i]) < 2;
    forall x | x in placement[i] ensures Size(services, x) >= p {
      InFlatten(placement, x);
    }
    LightNodeHasRoom(services, p, limit, placement[i]);
  }

  /** load is at most num/den times other. */
  ghost predicate AtMostTimes(load: nat, num: nat, den: nat, other: nat) {
    Times(den, load) <= Times(num, other)
  }

  lemma {:induction false} AtMostTimesMeaning(load: nat, num: nat, den: nat, other: nat)
    ensures AtMostTimes(load, num, den, other) <==> den * load <= num * other
  {
    TimesIsProduct(den, load);
    TimesIsProduct(num, other);
  }

  lemma {:induction false} ScaledAverage(n: nat, load: nat, p: nat, limit: nat)
    requires n > 0 && 3 * p <= limit && n * load + p <= n * limit
    ensures 3 * n * (load + p) <= (4 * n - 1) * limit
  {
    var k := n - 1;
    MulMono(k, 3 * p, limit);
    calc {
      3 * n * (load + p);
      3 * (n * (load + p));
      { assert n * (load + p) == n * load + n * p; }
      3 * (n * load + p) + 3 * (n * p) - 3 * p;
      { assert n * p == k * p + p; }
      3 * (n * load + p) + 3 * (k * p);
    }
    assert k * (3 * p) == 3 * (k * p);
    assert (4 * n - 1) * limit == 3 * (n * limit) + k * limit;
  }

  /** Graham's bound for largest-first on n nodes: load is at most (4/3 - 1/(3n)) times the limit. */
  ghost predicate UnderLargestFirstBound(n: nat, load: nat, limit: nat) {
    n > 0 && AtMostTimes(load, 4 * n - 1, 3 * n, limit)
  }

  lemma {:induction false} AverageCase(n: nat, load: nat, p: nat, limit: nat)
    requires n > 0 && 3 * p <= limit && Times(n, load) + p <= Times(n, limit)
    ensures UnderLargestFirstBound(n, load + p, limit)
  {
    TimesIsProduct(n, load);
    TimesIsProduct(n, limit);
    ScaledAverage(n, load, p, limit);
    AtMostTimesMeaning(load + p, 4 * n - 1, 3 * n, limit);
  }

  /** If x is at most a third of the limit, averaging over the nodes bounds the least loaded one. */
  lemma {:induction false} LeastIsBelowAverage(
    services: Services, placement: Placement, queue: seq<Instance>, alt: Placement, limit: nat, b: nat)
    requires queue != [] && |alt| == |placement|
    requires multiset(Flatten(alt)) == multiset(Flatten(placement) + queue)
    requires AllAtMost(services, alt, limit)
    requires IsLeast(services, placement, b)
    ensures Times(|placement|, Load(services, placement[b])) + Size(services, queue[0]) <= Times(|placement|, limit)
  {
    TimesIsProduct(|placement|, Load(services, placement[b]));
    TimesIsProduct(|placement|, limit);
    var size := SizeOf(services);
    TotalAtLeast(size, placement, Load(services, placement[b]));
    TotalOfPermutation(size, alt, Flatten(placement) + queue);
    SumConcat(size, Flatten(placement), queue);
    TotalIsSumOfFlatten(size, placement);
    TotalAtMost(size, alt, limit);
  }

  lemma {:induction false} LeastHasRoom(
    services: Services, placement: Placement, queue: seq<Instance>, alt: Placement, limit: nat, b: nat)
    requires queue != [] && |alt| == |placement|
    requires multiset(Flatten(alt)) == multiset(Flatten(placement) + queue)
    requires AllAtMost(services, alt, limit)
    requires IsLeast(services, placement, b)
    requires 3 * Size(services, queue[0]) > limit
    requires forall y | y in Flatten(placement) :: Size(services, y) >= Size(services, queue[0])
    ensures Load(services, placement[b]) + Size(services, queue[0]) <= limit
  {
    var i := SomeNodeIsLight(services, placement, queue, alt, limit);
    assert Load(services, placement[b]) <= Load(services, placement[i]);
  }

  /** One step of the size-ordered greedy, measured against any assignment alt of the same replicas. */
  lemma {:induction false} LargestFirstStep(
    services: Services, placement: Placement, queue: seq<Instance>, alt: Placement, limit: nat, b: nat)
    requires queue != [] && |alt| == |placement|
    requires multiset(Flatten(alt)) == multiset(Flatten(placement) + queue)
    requires AllAtMost(services, alt, limit)
    requires IsLeast(services, placement, b)
    requires forall y | y in Flatten(placement) :: Size(services, y) >= Size(services, queue[0])
    ensures UnderLargestFirstBound(|placement|, Load(services, placement[b]) + Size(services, queue[0]), limit)
  {
    hide Flatten, AllAtMost, Load, Size, Times, UnderLargestFirstBound;
    var n, p, load := |placement|, Size(services, queue[0]), Load(services, placement[b]);
    if 3 * p <= limit {
      LeastIsBelowAverage(services, placement, queue, alt, limit, b);
      AverageCase(n, load, p, limit);
    } else {
      LeastHasRoom(services, placement, queue, alt, limit, b);
      LightCase(n, load + p, limit);
    }
  }

  lemma {:induction false} LightCase(n: nat, load: nat, limit: nat)
    requires n > 0 && load <= limit
    ensures UnderLargestFirstBound(n, load, limit)
  {
    MulMono(3 * n, load, limit);
    MulMono(n - 1, 0, limit);
    assert (4 * n - 1) * limit == 3 * n * limit + (n - 1) * limit;
    AtMostTimesMeaning(load, 4 * n - 1, 3 * n, limit);
  }

  ghost predicate WithinLargestFirstBound(services: Services, placement: Placement, limit: nat) {
    forall i | 0 <= i < |placement| :: UnderLargestFirstBound(|placement|, Load(services, placement[i]), limit)
  }

  /** Placed replicas are no smaller than queued ones, the queue is in size order, and together they are alt's. */
  ghost predicate SizeOrdered(services: Services, placement: Placement, queue: seq<Instance>, alt: Placement) {
    && Descending(SizeOf(services), queue)
    && (forall x, y | x in Flatten(placement) && y in queue :: Size(services, x) >= Size(services, y))
    && multiset(Flatten(alt)) == multiset(Flatten(placement) + queue)
  }

  lemma {:induction false} StartsSizeOrdered(services: Services, queue: seq<Instance>, alt: Placement, n: nat)
    requires Descending(SizeOf(services), queue) && multiset(Flatten(alt)) == multiset(queue)
    ensures SizeOrdered(services, Empties(n), queue, alt)
  {
    FlattenOfEmpty(SizeOf(services), n);
    hide Size, Descending;
    assert [] + queue == queue;
  }

  lemma {:induction false} SizeOrderedNext(
    services: Services, placement: Placement, queue: seq<Instance>, alt: Placement, b: nat)
    requires b < |placement| && queue != []
    requires SizeOrdered(services, placement, queue, alt)
    ensures SizeOrdered(services, Put(placement, b, queue[0]), queue[1..], alt)
  {
    var next := Put(placement, b, queue[0]);
    FlattenAppend(placement, b, queue[0]);
    MoveHead(Flatten(placement), queue);
    forall x, y | x in Flatten(next) && y in queue[1..] ensures Size(services, x) >= Size(services, y) {
      assert x in multiset(Flatten(next));
      assert x == queue[0] || x in Flatten(placement);
      assert y in queue;
    }
  }

  lemma {:induction false} BoundNext(services: Services, placement: Placement, x: Instance, b: nat, limit: nat)
    requires b < |placement|
    requires WithinLargestFirstBound(services, placement, limit)
    requires UnderLargestFirstBound(|placement|, Load(services, placement[b]) + Size(services, x), limit)
    ensures WithinLargestFirstBound(services, Put(placement, b, x), limit)
  {
    SumAppend(SizeOf(services), placement[b], x);
  }

  lemma {:induction false} LargestFirstRun(
    services: Services, nodes: seq<Capacity>, placement: Placement, queue: seq<Instance>, alt: Placement, limit: nat)
    requires |alt| == |placement| == |nodes| > 0
    requires Roomy(services, nodes, placement, queue)
    requires SizeOrdered(services, placement, queue, alt)
    requires AllAtMost(services, alt, limit)
    requires WithinLargestFirstBound(services, placement, limit)
    ensures Strict(services, nodes, queue, placement).Some?
    ensures WithinLargestFirstBound(services, Strict(services, nodes, queue, placement).value, limit)
    decreases |queue|
  {
    hide Flatten, AllAtMost, Load, Size, UnderLargestFirstBound, Choose, Descending;
    if queue != [] {
      RoomyChoosesLeast(services, nodes, placement, queue);
      var b := Choose(services, nodes, placement, queue[0]);
      assert queue[0] in queue;
      LargestFirstStep(services, placement, queue, alt, limit, b);
      BoundNext(services, placement, queue[0], b, limit);
      SizeOrderedNext(services, placement, queue, alt, b);
      LargestFirstRun(services, nodes, Put(placement, b, queue[0]), queue[1..], alt, limit);
    }
  }

  // ---------- size order: large replicas ----------

  /** While every replica exceeds a third of the limit, the size-ordered greedy needs no more than the limit itself. */
  lemma {:induction false} LargeOnesFit(
    services: Services, nodes: seq<Capacity>, placement: Placement, queue: seq<Instance>, alt: Placement, limit: nat)
    requires |alt| == |placement| == |nodes| > 0
    requires Roomy(services, nodes, placement, queue)
    requires SizeOrdered(services, placement, queue, alt)
    requires AllAtMost(services, alt, limit) && AllAtMost(services, placement, limit)
    requires forall x | x in queue :: 3 * Size(services, x) > limit
    ensures Strict(services, nodes, queue, placement).Some?
    ensures AllAtMost(services, Strict(services, nodes, queue, placement).value, limit)
    decreases |queue|
  {
    hide Flatten, Load, Size, Choose, Descending;
    if queue != [] {
      RoomyChoosesLeast(services, nodes, placement, queue);
      var b := Choose(services, nodes, placement, queue[0]);
      assert queue[0] in queue;
      LeastHasRoom(services, placement, queue, alt, limit, b);
      AtMostNext(services, placement, queue[0], b, limit);
      SizeOrderedNext(services, placement, queue, alt, b);
      LargeOnesFit(services, nodes, Put(placement, b, queue[0]), queue[1..], alt, limit);
    }
  }

  lemma {:induction false} AtMostNext(services: Services, placement: Placement, x: Instance, b: nat, limit: nat)
    requires b < |placement| && AllAtMost(services, placement, limit)
    requires Load(services, placement[b]) + Size(services, x) <= limit
    ensures AllAtMost(services, Put(placement, b, x), limit)
  {
    SumAppend(SizeOf(services), placement[b], x);
  }

  lemma {:induction false} RoomyForFirst(
    services: Services, nodes: seq<Capacity>, placement: Placement, first: seq<Instance>, second: seq<Instance>)
    requires Roomy(services, nodes, placement, first + second)
    ensures Roomy(services, nodes, placement, first)
  {
    SumConcat(CpuOf(services), first, second);
    SumConcat(MemoryOf(services), first, second);
  }
}
