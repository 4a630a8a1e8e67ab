/**
 What the three schedulers do, told on the raw dictionaries without their own functions: the replicas stand in one
 determined order, and one after the other goes to the node the rule names, or stops the run, or is left out.
 */
module PlacementRuns {
  import opened Wrappers
  import opened Sums
  import opened StableSort
  import opened Workload
  import opened Greedy
  import opened Schedulers

  // ---------- the raw dictionaries ----------

  function Amt(f: Field): nat {
    if f.Number? && f.value >= 0 then f.value else 0
  }

  function RawCpu(services: Dict<RawService>, name: string): nat {
    if name in services.items && services.items[name].ServiceDict? then Amt(services.items[name].cpu) else 0
  }

  function RawMemory(services: Dict<RawService>, name: string): nat {
    if name in services.items && services.items[name].ServiceDict? then Amt(services.items[name].memory) else 0
  }

  function RawInstances(services: Dict<RawService>, name: string): nat {
    if name in services.items && services.items[name].ServiceDict? then Amt(services.items[name].instances) else 0
  }

  /** What the programs check before they place anything. */
  ghost predicate WellFormed(workers: seq<RawNode>, services: Dict<RawService>) {
    && (forall i | 0 <= i < |workers| ::
          && workers[i].NodeDict? && workers[i].cpu.Number? && workers[i].cpu.value >= 0
          && workers[i].memory.Number? && workers[i].memory.value >= 0)
    && (forall name | name in services.items ::
          && services.items[name].ServiceDict?
          && services.items[name].cpu.Number? && services.items[name].cpu.value >= 0
          && services.items[name].memory.Number? && services.items[name].memory.value >= 0
          && services.items[name].instances.Number? && services.items[name].instances.value > 0)
  }

  lemma {:induction false} WellFormedExactlyWhen(workers: seq<RawNode>, services: Dict<RawService>)
    ensures WellFormed(workers, services) <==> GoodNodes(workers) && GoodServices(services)
  {
  }

  // ---------- the order of the replicas ----------

  /** x comes before y: its service stands earlier in the dictionary, or it has the lower number. */
  ghost predicate Earlier(order: seq<string>, x: Instance, y: Instance) {
    || (x.name == y.name && x.num < y.num)
    || exists a, b :: 0 <= a < b < |order| && order[a] == x.name && order[b] == y.name
  }

  /** Larger keys first, and equal keys in the order of the dictionary. */
  ghost predicate Precedes(order: seq<string>, key: string -> nat, x: Instance, y: Instance) {
    key(x.name) > key(y.name) || (key(x.name) == key(y.name) && Earlier(order, x, y))
  }

  /** q holds every replica once and nothing else, in that order. */
  ghost predicate QueuedBy(services: Dict<RawService>, key: string -> nat, q: seq<Instance>) {
    && (forall x :: multiset(q)[x] == if x.num < RawInstances(services, x.name) then 1 else 0)
    && (forall i, j | 0 <= i < j < |q| :: Precedes(services.order, key, q[i], q[j]))
  }

  /** cpu + memory of one replica. */
  function BySize(services: Dict<RawService>): string -> nat {
    name => RawCpu(services, name) + RawMemory(services, name)
  }

  /** cpu + memory of all replicas of a service. */
  function ByTotal(services: Dict<RawService>): string -> nat {
    name => (RawCpu(services, name) + RawMemory(services, name)) * RawInstances(services, name)
  }

  lemma {:induction false} EarlierOneWay(order: seq<string>, x: Instance, y: Instance)
    requires forall i, j | 0 <= i < j < |order| :: order[i] != order[j]
    requires Earlier(order, x, y)
    ensures !Earlier(order, y, x)
  {
  }

  /** The relation holds from each element to every later one, and never both ways. */
  ghost predicate Ordered<T>(r: (T, T) -> bool, s: seq<T>) {
    && (forall i, j | 0 <= i < j < |s| :: r(s[i], s[j]))
    && (forall x, y | x in s && y in s && r(x, y) :: !r(y, x))
  }

  lemma {:induction false} OrderedTail<T>(r: (T, T) -> bool, s: seq<T>)
    requires s != [] && Ordered(r, s)
    ensures Ordered(r, s[1..])
  {
  }

  lemma {:induction false} SameHead<T>(r: (T, T) -> bool, s: seq<T>, t: seq<T>)
    requires s != [] && multiset(s) == multiset(t) && Ordered(r, s) && Ordered(r, t)
    ensures t != [] && s[0] == t[0] && multiset(s[1..]) == multiset(t[1..])
  {
    assert s[0] in multiset(t);
    assert t[0] in multiset(s);
    var k :| 0 <= k < |t| && t[k] == s[0];
    var m :| 0 <= m < |s| && s[m] == t[0];
    assert s[0] == t[0];
    SameWithout(s, t, 0);
    assert t[..0] + t[1..] == t[1..];
  }

  /** Only one list of given elements is ordered. */
  lemma {:induction false} SameOrderSameList<T>(r: (T, T) -> bool, s: seq<T>, t: seq<T>)
    requires multiset(s) == multiset(t) && Ordered(r, s) && Ordered(r, t)
    ensures s == t
  {
    if s == [] {
      assert |t| == |multiset(t)|;
    } else {
      SameHead(r, s, t);
      OrderedTail(r, s);
      OrderedTail(r, t);
      hide Ordered;
      SameOrderSameList(r, s[1..], t[1..]);
      assert s == [s[0]] + s[1..] && t == [t[0]] + t[1..];
    }
  }

  lemma {:induction false} ExpansionIsEarlier(order: seq<string>, services: Services)
    requires forall name | name in order :: name in services
    ensures var all := Expand(order, services);
      && (forall x | x in all :: x.name in order)
      && forall p, r | 0 <= p < r < |all| :: Earlier(order, all[p], all[r])
  {
    if order != [] {
      var head, tail := Replicas(order[0], 0, services[order[0]].instances), Expand(order[1..], services);
      var all := head + tail;
      ExpansionIsEarlier(order[1..], services);
      forall p, r | 0 <= p < r < |all| ensures Earlier(order, all[p], all[r]) {
        if r < |head| {
          assert all[p].name == all[r].name && all[p].num < all[r].num;
        } else if p < |head| {
          assert all[r] == tail[r - |head|] && all[r].name in order[1..];
          var b :| 0 <= b < |order[1..]| && order[1..][b] == all[r].name;
          assert order[0] == all[p].name && order[b + 1] == all[r].name;
        } else {
          EarlierInTail(order, tail[p - |head|], tail[r - |head|]);
        }
      }
    }
  }

  lemma {:induction false} EarlierInTail(order: seq<string>, x: Instance, y: Instance)
    requires order != [] && Earlier(order[1..], x, y)
    ensures Earlier(order, x, y)
  {
    if !(x.name == y.name && x.num < y.num) {
      var a, b :| 0 <= a < b < |order[1..]| && order[1..][a] == x.name && order[1..][b] == y.name;
      assert order[a + 1] == x.name && order[b + 1] == y.name;
    }
  }

  lemma {:induction false} RawAgrees(services: Dict<RawService>, x: Instance)
    requires GoodServices(services)
    ensures var demands := ServicesOf(services);
      && Cpu(demands, x) == RawCpu(services, x.name) && Memory(demands, x) == RawMemory(services, x.name)
      && Size(demands, x) == BySize(services)(x.name) && ServiceTotal(demands, x) == ByTotal(services)(x.name)
      && (Demanded(demands, x) <==> x.num < RawInstances(services, x.name))
  {
    var c, m, n := RawCpu(services, x.name), RawMemory(services, x.name), RawInstances(services, x.name);
    assert (c + m) * n == c * n + m * n;
  }

  lemma {:induction false} ReplicasAreEarlier(services: Dict<RawService>)
    requires services.Valid() && GoodServices(services)
    ensures var all := AllReplicas(services);
      forall p, r | 0 <= p < r < |all| :: Earlier(services.order, all[p], all[r])
  {
    ExpansionIsEarlier(services.order, ServicesOf(services));
  }

  lemma {:induction false} SortedInOrder(
    order: seq<string>, all: seq<Instance>, k: Instance -> nat, key: string -> nat)
    requires forall x: Instance :: k(x) == key(x.name)
    requires forall p, r | 0 <= p < r < |all| :: Earlier(order, all[p], all[r])
    ensures var q := SortDescending(k, all); forall i, j | 0 <= i < j < |q| :: Precedes(order, key, q[i], q[j])
  {
    hide Earlier, SortDescending;
    var q, earlier := SortDescending(k, all), (x: Instance, y: Instance) => Earlier(order, x, y);
    SortDescends(k, all);
    SortKeepsTies(k, earlier, all);
    forall i, j | 0 <= i < j < |q| ensures Precedes(order, key, q[i], q[j]) {
      assert k(q[i]) == k(q[j]) ==> earlier(q[i], q[j]);
    }
  }

  lemma {:induction false} SortedIsQueued(services: Dict<RawService>, k: Instance -> nat, key: string -> nat)
    requires services.Valid() && GoodServices(services) && forall x: Instance :: k(x) == key(x.name)
    ensures QueuedBy(services, key, SortDescending(k, AllReplicas(services)))
  {
    hide SortDescending, Expand, RawInstances, Precedes, Demanded;
    var q := SortDescending(k, AllReplicas(services));
    forall x: Instance ensures multiset(q)[x] == if x.num < RawInstances(services, x.name) then 1 else 0 {
      QueueDemands(services, k, x);
      RawAgrees(services, x);
    }
    ReplicasAreEarlier(services);
    SortedInOrder(services.order, AllReplicas(services), k, key);
  }

  /** There is only one such list. */
  lemma {:induction false} QueueIsUnique(
    services: Dict<RawService>, key: string -> nat, q: seq<Instance>, r: seq<Instance>)
    requires services.Valid() && QueuedBy(services, key, q) && QueuedBy(services, key, r)
    ensures q == r
  {
    var before := (x: Instance, y: Instance) => Precedes(services.order, key, x, y);
    assert multiset(q) == multiset(r);
    forall x, y | before(x, y) ensures !before(y, x) {
      if key(x.name) == key(y.name) {
        EarlierOneWay(services.order, x, y);
      }
    }
    hide Precedes;
    SameOrderSameList(before, q, r);
  }

  /** The schedulers' queues are these lists. */
  lemma {:induction false} QueuesAre(services: Dict<RawService>, q: seq<Instance>)
    requires services.Valid() && GoodServices(services)
    ensures QueuedBy(services, BySize(services), q) <==> q == SizeQueue(services)
    ensures QueuedBy(services, ByTotal(services), q) <==> q == TotalQueue(services)
  {
    var demands := ServicesOf(services);
    forall x: Instance
      ensures SizeOf(demands)(x) == BySize(services)(x.name) && ServiceTotalOf(demands)(x) == ByTotal(services)(x.name)
    {
      RawAgrees(services, x);
    }
    SortedIsQueued(services, SizeOf(demands), BySize(services));
    SortedIsQueued(services, ServiceTotalOf(demands), ByTotal(services));
    hide QueuedBy, SortDescending;
    if QueuedBy(services, BySize(services), q) {
      QueueIsUnique(services, BySize(services), q, SizeQueue(services));
    }
    if QueuedBy(services, ByTotal(services), q) {
      QueueIsUnique(services, ByTotal(services), q, TotalQueue(services));
    }
  }

  // ---------- one replica after the other ----------

  function CpuOn(services: Dict<RawService>, placed: seq<Instance>): nat {
    if placed == [] then 0
    else CpuOn(services, placed[..|placed| - 1]) + RawCpu(services, placed[|placed| - 1].name)
  }

  function MemoryOn(services: Dict<RawService>, placed: seq<Instance>): nat {
    if placed == [] then 0
    else MemoryOn(services, placed[..|placed| - 1]) + RawMemory(services, placed[|placed| - 1].name)
  }

  predicate HasRoom(worker: RawNode, services: Dict<RawService>, placed: seq<Instance>, x: Instance) {
    && worker.NodeDict?
    && CpuOn(services, placed) + RawCpu(services, x.name) <= Amt(worker.cpu)
    && MemoryOn(services, placed) + RawMemory(services, x.name) <= Amt(worker.memory)
  }

  /** Of the workers with room, b is the one least used in cpu and memory together, the first of these on a tie. */
  ghost predicate Lands(
    workers: seq<RawNode>, services: Dict<RawService>, placed: Placement, x: Instance, b: nat)
    requires |placed| == |workers|
  {
    && b < |workers| && HasRoom(workers[b], services, placed[b], x)
    && forall i | 0 <= i < |workers| && HasRoom(workers[i], services, placed[i], x) ::
         var used, other := CpuOn(services, placed[b]) + MemoryOn(services, placed[b]),
                            CpuOn(services, placed[i]) + MemoryOn(services, placed[i]);
         used < other || (used == other && b <= i)
  }

  ghost predicate NoRoom(workers: seq<RawNode>, services: Dict<RawService>, placed: Placement, x: Instance)
    requires |placed| == |workers|
  {
    forall i | 0 <= i < |workers| :: !HasRoom(workers[i], services, placed[i], x)
  }

  /** x is appended to the node it lands on. */
  ghost predicate PutOn(
    workers: seq<RawNode>, services: Dict<RawService>, before: Placement, x: Instance, after: Placement)
    requires |before| == |workers|
  {
    exists b :: 0 <= b < |workers| && Lands(workers, services, before, x, b) && after == before[b := before[b] + [x]]
  }

  /** Starting with empty workers, each state follows from the one before by its replica. */
  ghost predicate Run(
    workers: seq<RawNode>, services: Dict<RawService>, q: seq<Instance>, states: seq<Placement>, skipping: bool)
  {
    && 0 < |states| <= |q| + 1
    && (forall j | 0 <= j < |states| :: |states[j]| == |workers|)
    && (forall i | 0 <= i < |workers| :: states[0][i] == [])
    && (forall j | 0 <= j < |states| - 1 ::
          || PutOn(workers, services, states[j], q[j], states[j + 1])
          || (skipping && NoRoom(workers, services, states[j], q[j]) && states[j + 1] == states[j]))
  }

  lemma {:induction false} UseIsRaw(services: Dict<RawService>, placed: seq<Instance>)
    requires GoodServices(services)
    ensures var demands := ServicesOf(services);
      && CpuUse(demands, placed) == CpuOn(services, placed) && MemoryUse(demands, placed) == MemoryOn(services, placed)
      && Load(demands, placed) == CpuOn(services, placed) + MemoryOn(services, placed)
  {
    var demands := ServicesOf(services);
    SizeIsCpuPlusMemory(demands, placed);
    if placed != [] {
      var front, last := placed[..|placed| - 1], placed[|placed| - 1];
      UseIsRaw(services, front);
      RawAgrees(services, last);
      assert placed == front + [last];
      SumAppend(CpuOf(demands), front, last);
      SumAppend(MemoryOf(demands), front, last);
    }
  }

  /** The schedulers' choice is the node the replica lands on. */
  lemma {:induction false} ChoiceIsRaw(
    workers: seq<RawNode>, services: Dict<RawService>, placed: Placement, x: Instance, b: nat)
    requires GoodNodes(workers) && GoodServices(services) && |placed| == |workers|
    ensures var c := Choose(ServicesOf(services), NodesOf(workers), placed, x);
      && (NoRoom(workers, services, placed, x) <==> c == -1)
      && (Lands(workers, services, placed, x, b) <==> b == c)
  {
    var demands, nodes := ServicesOf(services), NodesOf(workers);
    forall i | 0 <= i < |workers|
      ensures HasRoom(workers[i], services, placed[i], x) <==> Fits(demands, nodes[i], placed[i], x)
      ensures Load(demands, placed[i]) == CpuOn(services, placed[i]) + MemoryOn(services, placed[i])
    {
      UseIsRaw(services, placed[i]);
      RawAgrees(services, x);
    }
    hide HasRoom, Fits, Load, CpuOn, MemoryOn, ServicesOf, NodesOf;
    ChoiceIsUnique(demands, nodes, placed, x, b);
  }

  /** Up to any state of a run, the strict program is at that state. */
  lemma {:induction false} StrictFollows(
    workers: seq<RawNode>, services: Dict<RawService>, q: seq<Instance>, states: seq<Placement>, j: nat)
    requires GoodNodes(workers) && GoodServices(services)
    requires Run(workers, services, q, states, false) && j < |states|
    ensures Strict(ServicesOf(services), NodesOf(workers), q, Empties(|workers|))
         == Strict(ServicesOf(services), NodesOf(workers), q[j..], states[j])
  {
    hide Lands, NoRoom, ServicesOf, NodesOf;
    if j == 0 {
      assert states[0] == Empties(|workers|) && q[0..] == q;
    } else {
      StrictFollows(workers, services, q, states, j - 1);
      assert PutOn(workers, services, states[j - 1], q[j - 1], states[j]);
      var b :| 0 <= b < |workers| && Lands(workers, services, states[j - 1], q[j - 1], b) &&
        states[j] == states[j - 1][b := states[j - 1][b] + [q[j - 1]]];
      ChoiceIsRaw(workers, services, states[j - 1], q[j - 1], b);
      assert q[j - 1..][1..] == q[j..];
    }
  }

  /** Likewise the skipping one. */
  lemma {:induction false} LenientFollows(
    workers: seq<RawNode>, services: Dict<RawService>, q: seq<Instance>, states: seq<Placement>, j: nat)
    requires GoodNodes(workers) && GoodServices(services)
    requires Run(workers, services, q, states, true) && j < |states|
    ensures Lenient(ServicesOf(services), NodesOf(workers), q, Empties(|workers|)).0
         == Lenient(ServicesOf(services), NodesOf(workers), q[j..], states[j]).0
  {
    hide Lands, NoRoom, ServicesOf, NodesOf;
    if j == 0 {
      assert states[0] == Empties(|workers|) && q[0..] == q;
    } else {
      LenientFollows(workers, services, q, states, j - 1);
      var before, x := states[j - 1], q[j - 1];
      assert q[j - 1..][1..] == q[j..];
      if PutOn(workers, services, before, x, states[j]) {
        var b :| 0 <= b < |workers| && Lands(workers, services, before, x, b) &&
          states[j] == before[b := before[b] + [x]];
        ChoiceIsRaw(workers, services, before, x, b);
      } else {
        ChoiceIsRaw(workers, services, before, x, 0);
      }
    }
  }

  /** A run that got through the queue, or cannot place the next replica. */
  ghost predicate Ended(
    workers: seq<RawNode>, services: Dict<RawService>, q: seq<Instance>, states: seq<Placement>)
    requires Run(workers, services, q, states, false)
  {
    |states| <= |q| ==> NoRoom(workers, services, states[|states| - 1], q[|states| - 1])
  }

  ghost function Outcome(q: seq<Instance>, states: seq<Placement>): Option<Placement>
    requires states != []
  {
    if |states| == |q| + 1 then Some(states[|q|]) else None
  }

  lemma {:induction false} StrictEnds(
    workers: seq<RawNode>, services: Dict<RawService>, q: seq<Instance>, states: seq<Placement>)
    requires GoodNodes(workers) && GoodServices(services)
    requires Run(workers, services, q, states, false) && Ended(workers, services, q, states)
    ensures Strict(ServicesOf(services), NodesOf(workers), q, Empties(|workers|)) == Outcome(q, states)
  {
    var last := |states| - 1;
    StrictFollows(workers, services, q, states, last);
    if last < |q| {
      ChoiceIsRaw(workers, services, states[last], q[last], 0);
      assert q[last..][0] == q[last];
    }
  }

  // ---------- what the programs return ----------

  /** The largest-first program returns the end of the run over the replicas by size, and None when that gets stuck. */
  lemma {:induction false} LargestFirstIsTheRun(
    workers: seq<RawNode>, services: Dict<RawService>, q: seq<Instance>, states: seq<Placement>)
    requires services.Valid()
    ensures workers == [] || services.order == [] || !WellFormed(workers, services) ==>
      LargestFirst(workers, services) == None
    ensures
      && workers != [] && services.order != [] && WellFormed(workers, services)
      && QueuedBy(services, BySize(services), q)
      && Run(workers, services, q, states, false) && Ended(workers, services, q, states) ==>
      LargestFirst(workers, services) == Outcome(q, states)
  {
    hide QueuedBy, Run, Ended, Strict;
    WellFormedExactlyWhen(workers, services);
    if GoodNodes(workers) && GoodServices(services) && QueuedBy(services, BySize(services), q) &&
       Run(workers, services, q, states, false) && Ended(workers, services, q, states) {
      QueuesAre(services, q);
      StrictEnds(workers, services, q, states);
    }
  }

  /** The strict program does the same over the replicas by total demand, after its own ways of failing. */
  lemma {:induction false} HeaviestFirstIsTheRun(
    workers: seq<RawNode>, services: Dict<RawService>, q: seq<Instance>, states: seq<Placement>)
    requires services.Valid()
    ensures services.order == [] ==> HeaviestFirst(workers, services) == Failure(NodeCount.AttributeError)
    ensures services.order != [] && workers != [] && !WellFormed(workers, services) ==>
      HeaviestFirst(workers, services) == Success(None)
    ensures services.order != [] && workers == [] ==>
      (HeaviestFirst(workers, services) == Success(None) <==>
         forall name | name in services.items ::
           && services.items[name].ServiceDict? && services.items[name].cpu.Number?
           && services.items[name].memory.Number? && services.items[name].instances.Number?)
    ensures services.order != [] && workers == [] && HeaviestFirst(workers, services) != Success(None) ==>
      HeaviestFirst(workers, services) == Failure(NodeCount.BadEntry)
    ensures
      && workers != [] && services.order != [] && WellFormed(workers, services)
      && QueuedBy(services, ByTotal(services), q)
      && Run(workers, services, q, states, false) && Ended(workers, services, q, states) ==>
      HeaviestFirst(workers, services) == Success(Outcome(q, states))
  {
    hide QueuedBy, Run, Ended, Strict;
    WellFormedExactlyWhen(workers, services);
    if GoodNodes(workers) && GoodServices(services) && QueuedBy(services, ByTotal(services), q) &&
       Run(workers, services, q, states, false) && Ended(workers, services, q, states) {
      QueuesAre(services, q);
      StrictEnds(workers, services, q, states);
    }
  }

  /** The skipping program returns the end of the run that leaves out what has no room. */
  lemma {:induction false} SkippingIsTheRun(
    workers: seq<RawNode>, services: Dict<RawService>, q: seq<Instance>, states: seq<Placement>)
    requires services.Valid()
    ensures !WellFormed(workers, services) ==> Skipping(workers, services) == None
    ensures
      && WellFormed(workers, services) && QueuedBy(services, ByTotal(services), q)
      && Run(workers, services, q, states, true) && |states| == |q| + 1 ==>
      Skipping(workers, services) == Some(states[|q|])
  {
    WellFormedExactlyWhen(workers, services);
    if GoodNodes(workers) && GoodServices(services) && QueuedBy(services, ByTotal(services), q) &&
       Run(workers, services, q, states, true) && |states| == |q| + 1 {
      hide QueuedBy;
      QueuesAre(services, q);
      LenientFollows(workers, services, q, states, |q|);
    }
  }

  // ---------- there always is such a run ----------

  lemma {:induction false} Continued(
    workers: seq<RawNode>, services: Dict<RawService>, q: seq<Instance>, states: seq<Placement>, next: Placement,
    skipping: bool)
    requires Run(workers, services, q, states, skipping) && |states| <= |q| && |next| == |workers|
    requires var last, x := states[|states| - 1], q[|states| - 1];
      PutOn(workers, services, last, x, next) || (skipping && NoRoom(workers, services, last, x) && next == last)
    ensures Run(workers, services, q, states + [next], skipping)
  {
    hide PutOn, NoRoom;
    var longer := states + [next];
    forall j | 0 <= j < |longer| - 1
      ensures PutOn(workers, services, longer[j], q[j], longer[j + 1])
        || (skipping && NoRoom(workers, services, longer[j], q[j]) && longer[j + 1] == longer[j])
    {
      assert longer[j] == states[j];
      assert j < |states| - 1 ==> longer[j + 1] == states[j + 1];
    }
  }

  /** A run can be carried on until it is through the queue or, unless it skips, until it is stuck. */
  lemma {:induction false} CarriedOn(
    workers: seq<RawNode>, services: Dict<RawService>, q: seq<Instance>, states: seq<Placement>, skipping: bool)
    returns (all: seq<Placement>)
    requires GoodNodes(workers) && GoodServices(services) && Run(workers, services, q, states, skipping)
    ensures Run(workers, services, q, all, skipping)
    ensures if skipping then |all| == |q| + 1 else Ended(workers, services, q, all)
    decreases |q| + 1 - |states|
  {
    all := states;
    if |states| <= |q| {
      var last, x := states[|states| - 1], q[|states| - 1];
      var c := Choose(ServicesOf(services), NodesOf(workers), last, x);
      ChoiceIsRaw(workers, services, last, x, if c == -1 then 0 else c);
      if c != -1 {
        var next := last[c := last[c] + [x]];
        assert PutOn(workers, services, last, x, next);
        Continued(workers, services, q, states, next, skipping);
        all := CarriedOn(workers, services, q, states + [next], skipping);
      } else if skipping {
        Continued(workers, services, q, states, last, skipping);
        all := CarriedOn(workers, services, q, states + [last], skipping);
      }
    }
  }

  /** On well-formed input there is a queue of each kind, and over any queue a run that ends. */
  lemma {:induction false} QueuesExist(workers: seq<RawNode>, services: Dict<RawService>)
    returns (bySize: seq<Instance>, byTotal: seq<Instance>)
    requires services.Valid() && WellFormed(workers, services)
    ensures QueuedBy(services, BySize(services), bySize) && QueuedBy(services, ByTotal(services), byTotal)
  {
    WellFormedExactlyWhen(workers, services);
    bySize, byTotal := SizeQueue(services), TotalQueue(services);
    QueuesAre(services, bySize);
    QueuesAre(services, byTotal);
  }

  lemma {:induction false} RunExists(
    workers: seq<RawNode>, services: Dict<RawService>, q: seq<Instance>, skipping: bool)
    returns (states: seq<Placement>)
    requires WellFormed(workers, services)
    ensures Run(workers, services, q, states, skipping)
    ensures if skipping then |states| == |q| + 1 else Ended(workers, services, q, states)
  {
    WellFormedExactlyWhen(workers, services);
    var start := seq(|workers|, _ => []);
    states := CarriedOn(workers, services, q, [start], skipping);
  }

  // ---------- the keys ----------

  /** The key of the second and third program is the load of all replicas of the service. */
  lemma {:induction false} TotalIsLoad(services: Services, x: Instance)
    requires x.name in services
    ensures ServiceTotal(services, x) == Load(services, Replicas(x.name, 0, services[x.name].instances))
  {
    var count := services[x.name].instances;
    NodeCount.SumOfReplicas(services, x.name, count);
    SizeIsCpuPlusMemory(services, Replicas(x.name, 0, count));
  }
}
