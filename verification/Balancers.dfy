/** The two balancing programs, on dictionary objects that are updated in place. */
module Balancers {
  import opened Wrappers
  import opened Counting
  import opened Workload
  import opened Balancing
  import opened RoundRobin

  const FRUIT_PLACEHOLDER := "remainder_fruit"

  /** One Python dictionary object. */
  class Basket {
    var counts: Counts

    constructor (initial: Counts)
      ensures counts == initial
    {
      counts := initial;
    }
  }

  ghost function View(baskets: seq<Basket>): (view: Baskets)
    reads baskets
    ensures |view| == |baskets|
  {
    seq(|baskets|, i requires 0 <= i < |baskets| reads baskets => baskets[i].counts)
  }

  ghost predicate Distinct(baskets: seq<Basket>) {
    forall i, j | 0 <= i < j < |baskets| :: baskets[i] != baskets[j]
  }

  /** The search for the basket with the fewest items. */
  method FindLeast(baskets: seq<Basket>) returns (least: nat)
    requires baskets != []
    ensures least == FirstLeast(LevelsOf(View(baskets)))
  {
    ghost var levels := LevelsOf(View(baskets));
    least := 0;
    var minCount := SumOf(baskets[0].counts);
    for i := 1 to |baskets|
      invariant least == FirstLeastAmong(levels, i) && minCount == levels[least]
    {
      var count := SumOf(baskets[i].counts);
      if count < minCount {
        minCount := count;
        least := i;
      }
    }
  }

  method AddPlaceholders(baskets: seq<Basket>, remainder: nat, placeholder: string)
    requires remainder <= |baskets| && Distinct(baskets)
    modifies baskets
    ensures View(baskets) == WithPlaceholders(old(View(baskets)), remainder, placeholder)
  {
    for i := 0 to remainder
      invariant View(baskets) == WithPlaceholders(old(View(baskets)), i, placeholder)
    {
      ghost var before := View(baskets);
      baskets[i].counts := AddOne(baskets[i].counts, placeholder);
      assert View(baskets) == before[i := AddOne(before[i], placeholder)];
    }
  }

  method RemovePlaceholders(baskets: seq<Basket>, placeholder: string)
    requires Distinct(baskets)
    modifies baskets
    ensures View(baskets) == Without(old(View(baskets)), placeholder)
  {
    for i := 0 to |baskets|
      invariant forall j | 0 <= j < i :: baskets[j].counts == old(baskets[j].counts) - {placeholder}
      invariant forall j | i <= j < |baskets| :: baskets[j].counts == old(baskets[j].counts)
    {
      if placeholder in baskets[i].counts {
        baskets[i].counts := baskets[i].counts - {placeholder};
      } else {
        assert baskets[i].counts == baskets[i].counts - {placeholder};
      }
    }
  }

  method AddToLeast(baskets: seq<Basket>, item: string)
    requires baskets != [] && Distinct(baskets)
    modifies baskets
    ensures View(baskets) == AddItem(old(View(baskets)), item)
  {
    var least := FindLeast(baskets);
    baskets[least].counts := AddOne(baskets[least].counts, item);
  }

  /** The distribution loops: every item of every kind goes to the least-filled basket. */
  method Pour(baskets: seq<Basket>, order: seq<string>, quantity: Counts)
    requires baskets != [] && Distinct(baskets)
    requires forall name | name in order :: name in quantity
    modifies baskets
    ensures View(baskets) == Fill(old(View(baskets)), Items(order, quantity))
  {
    hide LevelsOf, Items, AddItem;
    ghost var start := View(baskets);
    EmptyItems(quantity);
    for i := 0 to |order|
      invariant View(baskets) == Fill(start, Items(order[..i], quantity))
    {
      var item := order[i];
      ghost var before := Items(order[..i], quantity);
      assert before + Copies(item, 0) == before;
      for k := 0 to quantity[item]
        invariant View(baskets) == Fill(start, before + Copies(item, k))
      {
        AddToLeast(baskets, item);
        assert before + Copies(item, k + 1) == (before + Copies(item, k)) + [item];
        FillAppend(start, before + Copies(item, k), item);
      }
      ItemsAppend(order[..i], item, quantity);
      assert order[..i + 1] == order[..i] + [item];
    }
    assert order[..|order|] == order;
  }

  lemma {:induction false} EmptyItems(quantity: Counts)
    ensures Items([], quantity) == []
  {
  }

  lemma {:induction false} ItemsAppend(order: seq<string>, item: string, quantity: Counts)
    requires forall name | name in order + [item] :: name in quantity
    ensures Items(order + [item], quantity) == Items(order, quantity) + Copies(item, quantity[item])
  {
    if order == [] {
      assert [item][1..] == [];
    } else {
      assert (order + [item])[1..] == order[1..] + [item];
      ItemsAppend(order[1..], item, quantity);
    }
  }

  method CheckQuantities(items: Dict<Field>) returns (good: bool)
    requires items.Valid()
    ensures good == GoodQuantities(items)
  {
    for i := 0 to |items.order|
      invariant forall j | 0 <= j < i :: Amount(items.items[items.order[j]])
    {
      if !Amount(items.items[items.order[i]]) {
        return false;
      }
    }
    return true;
  }

  method TotalQuantity(order: seq<string>, quantity: Counts) returns (total: nat)
    requires forall name | name in order :: name in quantity
    ensures total == |Items(order, quantity)|
  {
    total := 0;
    for i := 0 to |order|
      invariant total == |Items(order[..i], quantity)|
    {
      total := total + quantity[order[i]];
      assert order[..i + 1] == order[..i] + [order[i]];
      ItemsAppend(order[..i], order[i], quantity);
    }
    assert order[..|order|] == order;
  }

  method TotalPresent(baskets: seq<Basket>) returns (total: nat)
    ensures total == Sum(LevelsOf(View(baskets)))
  {
    total := 0;
    ghost var levels := LevelsOf(View(baskets));
    for i := 0 to |baskets|
      invariant total == Sum(levels[..i])
    {
      var count := SumOf(baskets[i].counts);
      total := total + count;
      assert levels[..i + 1] == levels[..i] + [levels[i]];
      SumAppend(levels[..i], levels[i]);
    }
    assert levels[..|levels|] == levels;
  }

  /** A fresh dictionary for each of the given contents. */
  method CopyAll(contents: Baskets) returns (copies: seq<Basket>)
    ensures View(copies) == contents && Distinct(copies) && fresh(copies)
  {
    copies := [];
    for i := 0 to |contents|
      invariant View(copies) == contents[..i] && Distinct(copies) && fresh(copies)
    {
      var copy := new Basket(contents[i]);
      copies := copies + [copy];
    }
  }

  method RemainderOf(total: nat, n: nat) returns (r: nat)
    requires n > 0
    ensures r == Rem(total, n)
  {
    r := total % n;
    QuotRemMeaning(total, n);
  }

  /** The common part of both programs. */
  method Balance(baskets: seq<Basket>, items: Dict<Field>, placeholder: string)
    requires baskets != [] && Distinct(baskets)
    requires items.Valid() && GoodQuantities(items)
    modifies baskets
    ensures View(baskets) == Balanced(old(View(baskets)), Items(items.order, QuantitiesOf(items)), placeholder)
  {
    hide Rem, Fill, Sum, LevelsOf, Items, WithPlaceholders, Without;
    var quantity := QuantitiesOf(items);
    var incoming := TotalQuantity(items.order, quantity);
    var present := TotalPresent(baskets);
    var remainder := RemainderOf(incoming + present, |baskets|);
    AddPlaceholders(baskets, remainder, placeholder);
    Pour(baskets, items.order, quantity);
    RemovePlaceholders(baskets, placeholder);
  }

  /** server/nodes/initial_load_distribution.py */
  method DistributePods(nodes: Field, applications: Dict<Field>) returns (r: Option<seq<Basket>>)
    requires applications.Valid()
    ensures r.Some? <==>
      && nodes.Number? && nodes.value > 0 && applications.order != []
      && forall name | name in applications.items ::
           applications.items[name].Number? && applications.items[name].value >= 0
    ensures r.Some? ==> fresh(r.value) && Distinct(r.value)
    ensures r.Some? ==>
      View(r.value) == Balanced(
        EmptyNodes(nodes.value), Items(applications.order, QuantitiesOf(applications)), POD_PLACEHOLDER)
  {
    if !nodes.Number? || nodes.value <= 0 || applications.order == [] {
      return None;
    }
    var good := CheckQuantities(applications);
    if !good {
      return None;
    }
    var distributed := CopyAll(EmptyNodes(nodes.value));
    Balance(distributed, applications, POD_PLACEHOLDER);
    return Some(distributed);
  }

  /** modules/server/servertest.py.  Nothing that existed before the call is modified. */
  method DistributeFruits(baskets: Field, varieties: Dict<Field>, existing: Option<seq<Basket>>)
    returns (r: Option<seq<Basket>>)
    requires varieties.Valid()
    ensures r.Some? <==>
      && baskets.Number? && baskets.value > 0
      && (forall name | name in varieties.items ::
            varieties.items[name].Number? && varieties.items[name].value >= 0)
      && (existing.Some? ==> |existing.value| == baskets.value)
    ensures r.Some? ==> fresh(r.value) && Distinct(r.value)
    ensures r.Some? ==>
      View(r.value) == Balanced(
        if existing.Some? then View(existing.value) else EmptyNodes(baskets.value),
        Items(varieties.order, QuantitiesOf(varieties)), FRUIT_PLACEHOLDER)
    ensures existing.Some? ==> View(existing.value) == old(View(existing.value))
  {
    if !baskets.Number? || baskets.value <= 0 {
      return None;
    }
    var good := CheckQuantities(varieties);
    if !good {
      return None;
    }
    var distributed: seq<Basket>;
    if existing.None? {
      distributed := CopyAll(EmptyNodes(baskets.value));
    } else {
      if |existing.value| != baskets.value {
        return None;
      }
      var contents: Baskets := [];
      for i := 0 to |existing.value|
        invariant contents == View(existing.value)[..i]
      {
        contents := contents + [existing.value[i].counts];
      }
      assert contents == View(existing.value);
      distributed := CopyAll(contents);
    }
    Balance(distributed, varieties, FRUIT_PLACEHOLDER);
    return Some(distributed);
  }
}
