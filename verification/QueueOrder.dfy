/**
 When ordering replicas by their service's total demand also orders them by size, read off the dictionary, and what
 that gives: the strict scheduler then meets the bound of largest-first.
 */
module QueueOrder {
  import opened StableSort
  import opened Workload
  import opened Makespan
  import opened Schedulers
  import opened Guarantees

  /** Size and total demand of a service's replicas, by name. */
  function SizeNamed(services: Services, name: string): nat {
    Size(services, Instance(name, 0))
  }

  function TotalNamed(services: Services, name: string): nat {
    ServiceTotal(services, Instance(name, 0))
  }

  /** The i-th service is queued ahead of the j-th: it demands more in all, or as much and comes first. */
  predicate Ahead(order: seq<string>, services: Services, i: nat, j: nat)
    requires i < |order| && j < |order|
  {
    || TotalNamed(services, order[i]) > TotalNamed(services, order[j])
    || (TotalNamed(services, order[i]) == TotalNamed(services, order[j]) && i < j)
  }

  /** No service is queued ahead of one with larger replicas. */
  ghost predicate LargerAhead(order: seq<string>, services: Services) {
    forall i: nat, j: nat | i < |order| && j < |order| && Ahead(order, services, i, j) ::
      SizeNamed(services, order[i]) >= SizeNamed(services, order[j])
  }

  // ---------- where replicas stand in the queue ----------

  /** The expansion lists names in dictionary order. */
  lemma {:induction false} ExpansionFollowsOrder(
    order: seq<string>, services: Services, related: (string, string) -> bool)
    requires forall name | name in order :: name in services
    requires forall i, j | 0 <= i <= j < |order| :: related(order[i], order[j])
    ensures var all := Expand(order, services);
      && (forall x | x in all :: x.name in order)
      && (forall p, r | 0 <= p < r < |all| :: related(all[p].name, all[r].name))
  {
    if order != [] {
      var head, tail := Replicas(order[0], 0, services[order[0]].instances), Expand(order[1..], services);
      ExpansionFollowsOrder(order[1..], services, related);
      var all := head + tail;
      forall p, r | 0 <= p < r < |all| ensures related(all[p].name, all[r].name) {
        if r < |head| {
          assert all[p].name == all[r].name == order[0];
        } else {
          assert all[r] == tail[r - |head|];
          if p < |head| {
            assert tail[r - |head|].name in order[1..];
            assert all[p].name == order[0];
          } else {
            assert all[p] == tail[p - |head|];
          }
        }
      }
    }
  }

  /** Among replicas of equal total demand, the queue keeps what the dictionary order says about their names. */
  lemma {:induction false} QueueFollowsOrder(services: Dict<RawService>, related: (string, string) -> bool)
    requires services.Valid() && GoodServices(services)
    requires forall i, j | 0 <= i <= j < |services.order| &&
      TotalNamed(ServicesOf(services), services.order[i]) == TotalNamed(ServicesOf(services), services.order[j]) ::
      related(services.order[i], services.order[j])
    ensures TiesRelated(ServiceTotalOf(ServicesOf(services)), (x: Instance, y: Instance) => related(x.name, y.name),
                        TotalQueue(services))
  {
    var demands := ServicesOf(services);
    var tied := (a, b) => TotalNamed(demands, a) == TotalNamed(demands, b) ==> related(a, b);
    ExpansionFollowsOrder(services.order, demands, tied);
    var key, byName := ServiceTotalOf(demands), (x: Instance, y: Instance) => related(x.name, y.name);
    var all := AllReplicas(services);
    forall p, r | 0 <= p < r < |all| && key(all[p]) == key(all[r]) ensures byName(all[p], all[r]) {
      assert tied(all[p].name, all[r].name);
    }
    SortKeepsTies(key, byName, all);
  }

  lemma {:induction false} QueuedIsListed(services: Dict<RawService>, x: Instance)
    requires services.Valid() && GoodServices(services)
    ensures x in TotalQueue(services) <==> x.name in services.order && Demanded(ServicesOf(services), x)
  {
    QueueDemands(services, ServiceTotalOf(ServicesOf(services)), x);
    assert x in TotalQueue(services) <==> multiset(TotalQueue(services))[x] > 0;
  }

  /** A service that is ahead of another has its first replica ahead. */
  lemma {:induction false} AheadInQueue(services: Dict<RawService>, i: nat, j: nat) returns (p: nat, r: nat)
    requires services.Valid() && GoodServices(services) && i < |services.order| && j < |services.order|
    requires Ahead(services.order, ServicesOf(services), i, j)
    ensures p < r < |TotalQueue(services)|
    ensures TotalQueue(services)[p] == Instance(services.order[i], 0)
    ensures TotalQueue(services)[r] == Instance(services.order[j], 0)
  {
    var order, demands, queue := services.order, ServicesOf(services), TotalQueue(services);
    var key, x, y := ServiceTotalOf(demands), Instance(order[i], 0), Instance(order[j], 0);
    QueuedIsListed(services, x);
    QueuedIsListed(services, y);
    p :| p < |queue| && queue[p] == x;
    r :| r < |queue| && queue[r] == y;
    SortDescends(key, AllReplicas(services));
    if r < p {
      assert key(queue[r]) >= key(queue[p]);
      QueueFollowsOrder(services, (a, b) => !(a == order[j] && b == order[i]));
      assert false;
    }
  }

  /** The queue is in size order exactly when no service is ahead of a larger one. */
  lemma {:induction false} SizeOrderedExactlyWhen(services: Dict<RawService>)
    requires services.Valid() && GoodServices(services)
    ensures Descending(SizeOf(ServicesOf(services)), TotalQueue(services)) <==>
      LargerAhead(services.order, ServicesOf(services))
  {
    var order, demands, queue := services.order, ServicesOf(services), TotalQueue(services);
    if LargerAhead(order, demands) {
      LargerAheadSorts(services);
    } else {
      var i: nat, j: nat :| i < |order| && j < |order| && Ahead(order, demands, i, j) &&
        SizeNamed(demands, order[i]) < SizeNamed(demands, order[j]);
      var p, r := AheadInQueue(services, i, j);
    }
  }

  lemma {:induction false} NameDecides(services: Services, x: Instance)
    ensures Size(services, x) == SizeNamed(services, x.name)
    ensures ServiceTotal(services, x) == TotalNamed(services, x.name)
  {
  }

  /** Of two listed names, the one of larger total demand does not have the smaller replicas. */
  lemma {:induction false} MoreInAllIsLarger(order: seq<string>, services: Services, a: string, b: string)
    requires LargerAhead(order, services) && a in order && b in order
    requires TotalNamed(services, a) > TotalNamed(services, b)
    ensures SizeNamed(services, a) >= SizeNamed(services, b)
  {
    hide TotalNamed, SizeNamed;
    var i: nat :| i < |order| && order[i] == a;
    var j: nat :| j < |order| && order[j] == b;
    assert Ahead(order, services, i, j);
  }

  lemma {:induction false} SizesDescend(
    order: seq<string>, services: Services, queue: seq<Instance>, related: (Instance, Instance) -> bool)
    requires LargerAhead(order, services) && forall x | x in queue :: x.name in order
    requires forall x, y | related(x, y) :: SizeNamed(services, x.name) >= SizeNamed(services, y.name)
    requires Descending(ServiceTotalOf(services), queue) && TiesRelated(ServiceTotalOf(services), related, queue)
    ensures Descending(SizeOf(services), queue)
  {
    hide LargerAhead, Size, ServiceTotal, SizeNamed, TotalNamed;
    var key := ServiceTotalOf(services);
    forall p, r | 0 <= p < r < |queue| ensures Size(services, queue[p]) >= Size(services, queue[r]) {
      var x, y := queue[p], queue[r];
      NameDecides(services, x);
      NameDecides(services, y);
      assert key(x) == TotalNamed(services, x.name) && key(y) == TotalNamed(services, y.name);
      if key(x) == key(y) {
        assert related(x, y);
      } else {
        MoreInAllIsLarger(order, services, x.name, y.name);
      }
    }
  }

  lemma {:induction false} LargerAheadSorts(services: Dict<RawService>)
    requires services.Valid() && GoodServices(services) && LargerAhead(services.order, ServicesOf(services))
    ensures Descending(SizeOf(ServicesOf(services)), TotalQueue(services))
  {
    var demands, queue := ServicesOf(services), TotalQueue(services);
    var larger := (a, b) => SizeNamed(demands, a) >= SizeNamed(demands, b);
    SortDescends(ServiceTotalOf(demands), AllReplicas(services));
    QueueFollowsOrder(services, larger);
    hide SortDescending, Expand, ServicesOf, SizeNamed, TotalNamed, LargerAhead, Descending, TiesRelated;
    forall x | x in queue ensures x.name in services.order {
      QueuedIsListed(services, x);
    }
    SizesDescend(services.order, demands, queue, (x: Instance, y: Instance) => larger(x.name, y.name));
  }

  // ---------- what size order gives ----------

  /** Then the scheduler that orders by total demand meets the largest-first bound against any assignment. */
  lemma {:induction false} HeaviestFirstMeetsLargestFirstBound(
    workers: seq<RawNode>, services: Dict<RawService>, alt: Placement)
    requires Usable(workers, services) && AmpleCapacity(workers, services)
    requires Places(alt, |workers|, AllReplicas(services))
    requires LargerAhead(services.order, ServicesOf(services))
    ensures HeaviestFirst(workers, services).Success? && HeaviestFirst(workers, services).value.Some?
    ensures UnderLargestFirstBound(
      |workers|, MaxLoad(ServicesOf(services), HeaviestFirst(workers, services).value.value),
      MaxLoad(ServicesOf(services), alt))
  {
    LargerAheadSorts(services);
    OrderedQueueMeetsBound(workers, services, ServiceTotalOf(ServicesOf(services)), alt);
  }

  /** It is enough that larger replicas belong to services of larger total demand. */
  lemma {:induction false} LargerTotalsAreEnough(services: Dict<RawService>)
    requires services.Valid() && GoodServices(services)
    requires forall a, b | a in services.order && b in services.order &&
      SizeNamed(ServicesOf(services), a) < SizeNamed(ServicesOf(services), b) ::
      TotalNamed(ServicesOf(services), a) < TotalNamed(ServicesOf(services), b)
    ensures LargerAhead(services.order, ServicesOf(services))
  {
  }
}
