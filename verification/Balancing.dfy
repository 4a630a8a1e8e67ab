/**
 The placeholder balancer shared by server/nodes/initial_load_distribution.py and modules/server/servertest.py:
 reserve one placeholder on each of the first r positions, add every item to the first least-filled position,
 delete the placeholders.
 */
module Balancing {
  import opened Counting
  import opened Workload

  type Baskets = seq<Counts>

  ghost function LevelsOf(baskets: Baskets): (levels: seq<nat>)
    ensures |levels| == |baskets|
  {
    seq(|baskets|, i requires 0 <= i < |baskets| => SumValues(baskets[i]))
  }

  function AddOne(m: Counts, key: string): Counts {
    m[key := Get(m, key) + 1]
  }

  ghost function AddItem(baskets: Baskets, item: string): Baskets
    requires baskets != []
  {
    var b := FirstLeast(LevelsOf(baskets));
    baskets[b := AddOne(baskets[b], item)]
  }

  ghost function Fill(baskets: Baskets, items: seq<string>): (r: Baskets)
    requires baskets != []
    ensures |r| == |baskets|
    decreases |items|
  {
    if items == [] then baskets else Fill(AddItem(baskets, items[0]), items[1..])
  }

  ghost function WithPlaceholders(baskets: Baskets, r: nat, placeholder: string): Baskets
    requires r <= |baskets|
  {
    seq(|baskets|, i requires 0 <= i < |baskets| => if i < r then AddOne(baskets[i], placeholder) else baskets[i])
  }

  ghost function Without(baskets: Baskets, placeholder: string): Baskets {
    seq(|baskets|, i requires 0 <= i < |baskets| => baskets[i] - {placeholder})
  }

  function Copies(item: string, n: nat): seq<string> {
    seq(n, _ => item)
  }

  /** The items of a dictionary of quantities, in dictionary order. */
  function Items(order: seq<string>, quantity: Counts): seq<string>
    requires forall name | name in order :: name in quantity
  {
    if order == [] then [] else Copies(order[0], quantity[order[0]]) + Items(order[1..], quantity)
  }

  ghost predicate GoodQuantities(items: Dict<Field>) {
    forall name | name in items.items :: Amount(items.items[name])
  }

  function QuantitiesOf(items: Dict<Field>): (quantities: Counts)
    requires GoodQuantities(items)
    ensures quantities.Keys == items.items.Keys
    ensures forall name | name in items.items :: quantities[name] == items.items[name].value
  {
    map name | name in items.items :: items.items[name].value
  }

  /** The whole balancer on values. */
  ghost function Balanced(baskets: Baskets, items: seq<string>, placeholder: string): (final: Baskets)
    requires baskets != []
    ensures |final| == |baskets|
  {
    var r := Rem(|items| + Sum(LevelsOf(baskets)), |baskets|);
    Without(Fill(WithPlaceholders(baskets, r, placeholder), items), placeholder)
  }

  // ---------- one step and many ----------

  lemma {:induction false} AddOneLevel(m: Counts, key: string)
    ensures SumValues(AddOne(m, key)) == SumValues(m) + 1
  {
    SumValuesUpdate(m, key, Get(m, key) + 1);
  }

  lemma {:induction false} AddItemLevels(baskets: Baskets, item: string)
    requires baskets != []
    ensures var levels, b := LevelsOf(baskets), FirstLeast(LevelsOf(baskets));
      LevelsOf(AddItem(baskets, item)) == levels[b := levels[b] + 1]
  {
    var b := FirstLeast(LevelsOf(baskets));
    AddOneLevel(baskets[b], item);
  }

  lemma {:induction false} FillConcat(baskets: Baskets, s: seq<string>, t: seq<string>)
    requires baskets != []
    ensures Fill(baskets, s + t) == Fill(Fill(baskets, s), t)
    decreases |s|
  {
    if s == [] {
      assert s + t == t;
    } else {
      assert (s + t)[1..] == s[1..] + t;
      FillConcat(AddItem(baskets, s[0]), s[1..], t);
    }
  }

  lemma {:induction false} FillAppend(baskets: Baskets, s: seq<string>, item: string)
    requires baskets != []
    ensures Fill(baskets, s + [item]) == AddItem(Fill(baskets, s), item)
  {
    FillConcat(baskets, s, [item]);
    assert Fill(Fill(baskets, s), [item]) == AddItem(Fill(baskets, s), item) by {
      assert [item][1..] == [];
    }
  }

  // ---------- conservation ----------

  /** How many of one item there are over all positions. */
  function CountOf(baskets: Baskets, item: string): nat {
    if baskets == [] then 0 else Get(baskets[0], item) + CountOf(baskets[1..], item)
  }

  lemma {:induction false} CountOfUpdate(baskets: Baskets, b: nat, m: Counts, item: string)
    requires b < |baskets|
    ensures CountOf(baskets[b := m], item) + Get(baskets[b], item) == CountOf(baskets, item) + Get(m, item)
  {
    if b == 0 {
      assert baskets[b := m][1..] == baskets[1..];
    } else {
      assert baskets[b := m][1..] == baskets[1..][b - 1 := m];
      CountOfUpdate(baskets[1..], b - 1, m, item);
    }
  }

  /** Filling adds every item once, takes nothing away, and adds |items| in all. */
  lemma {:induction false} FillConserves(baskets: Baskets, items: seq<string>, item: string)
    requires baskets != []
    ensures CountOf(Fill(baskets, items), item) == CountOf(baskets, item) + multiset(items)[item]
    ensures forall i | 0 <= i < |baskets| :: Get(Fill(baskets, items)[i], item) >= Get(baskets[i], item)
    ensures item !in items ==>
      forall i | 0 <= i < |baskets| :: Get(Fill(baskets, items)[i], item) == Get(baskets[i], item)
    decreases |items|
  {
    if items != [] {
      var b := FirstLeast(LevelsOf(baskets));
      CountOfUpdate(baskets, b, AddOne(baskets[b], items[0]), item);
      FillConserves(AddItem(baskets, items[0]), items[1..], item);
      assert items == [items[0]] + items[1..];
    }
  }

  lemma {:induction false} FillSum(baskets: Baskets, items: seq<string>)
    requires baskets != []
    ensures Sum(LevelsOf(Fill(baskets, items))) == Sum(LevelsOf(baskets)) + |items|
    decreases |items|
  {
    if items != [] {
      hide AddItem, LevelsOf;
      var levels, b := LevelsOf(baskets), FirstLeast(LevelsOf(baskets));
      AddItemLevels(baskets, items[0]);
      SumUpdate(levels, b, levels[b] + 1);
      FillSum(AddItem(baskets, items[0]), items[1..]);
    }
  }

  lemma {:induction false} CountOfSame(s: Baskets, t: Baskets, item: string)
    requires |s| == |t| && forall i | 0 <= i < |s| :: Get(s[i], item) == Get(t[i], item)
    ensures CountOf(s, item) == CountOf(t, item)
  {
    if s != [] {
      CountOfSame(s[1..], t[1..], item);
    }
  }

  lemma {:induction false} CountOfNone(s: Baskets, item: string)
    requires forall i | 0 <= i < |s| :: Get(s[i], item) == 0
    ensures CountOf(s, item) == 0
  {
    if s != [] {
      CountOfNone(s[1..], item);
    }
  }

  lemma {:induction false} ConservesForAnyPrefix(
    baskets: Baskets, items: seq<string>, placeholder: string, r: nat, item: string)
    requires baskets != [] && r <= |baskets|
    ensures var final := Without(Fill(WithPlaceholders(baskets, r, placeholder), items), placeholder);
      && CountOf(final, item) == (if item == placeholder then 0 else CountOf(baskets, item) + multiset(items)[item])
      && (item != placeholder ==> forall i | 0 <= i < |baskets| :: Get(final[i], item) >= Get(baskets[i], item))
  {
    var start := WithPlaceholders(baskets, r, placeholder);
    var final := Without(Fill(start, items), placeholder);
    FillConserves(start, items, item);
    if item == placeholder {
      CountOfNone(final, item);
    } else {
      CountOfSame(start, baskets, item);
      CountOfSame(final, Fill(start, items), item);
    }
  }

  /** Every kind but the placeholder keeps its old counts and gains exactly its quantity; the placeholder goes. */
  lemma {:induction false} BalancedConserves(baskets: Baskets, items: seq<string>, placeholder: string, item: string)
    requires baskets != []
    ensures var final := Balanced(baskets, items, placeholder);
      && CountOf(final, item) == (if item == placeholder then 0 else CountOf(baskets, item) + multiset(items)[item])
      && (item != placeholder ==> forall i | 0 <= i < |baskets| :: Get(final[i], item) >= Get(baskets[i], item))
  {
    hide Rem, Fill, CountOf, LevelsOf, Sum;
    ConservesForAnyPrefix(
      baskets, items, placeholder, Rem(|items| + Sum(LevelsOf(baskets)), |baskets|), item);
  }

  /** The list of items holds each kind in its given quantity. */
  lemma {:induction false} ItemsCount(order: seq<string>, quantity: Counts, item: string)
    requires forall name | name in order :: name in quantity
    requires forall i, j | 0 <= i < j < |order| :: order[i] != order[j]
    ensures multiset(Items(order, quantity))[item] == if item in order then quantity[item] else 0
  {
    if order != [] {
      var head := Copies(order[0], quantity[order[0]]);
      CopiesCount(order[0], quantity[order[0]], item);
      ItemsCount(order[1..], quantity, item);
      assert multiset(head + Items(order[1..], quantity)) == multiset(head) + multiset(Items(order[1..], quantity));
    }
  }

  lemma {:induction false} CopiesCount(name: string, n: nat, item: string)
    ensures multiset(Copies(name, n))[item] == if item == name then n else 0
  {
    if n > 0 {
      CopiesCount(name, n - 1, item);
      assert Copies(name, n) == [name] + Copies(name, n - 1);
    }
  }

  // ---------- whoever receives an item ends at most one above anyone ----------

  ghost predicate Placeholders(marks: seq<nat>, r: nat) {
    forall i | 0 <= i < |marks| :: marks[i] == if i < r then 1 else 0
  }

  /** Counting without the placeholders, every position above its start is at most one above any other. */
  ghost predicate ReceiversLevel(start: seq<nat>, levels: seq<nat>, marks: seq<nat>) {
    && |start| == |levels| == |marks|
    && (forall i | 0 <= i < |levels| :: start[i] <= levels[i])
    && (forall i | 0 <= i < |levels| :: marks[i] <= levels[i])
    && (forall i, j | 0 <= i < |levels| && 0 <= j < |levels| && levels[i] > start[i] ::
          levels[i] - marks[i] <= levels[j] - marks[j] + 1)
  }

  /** The first least-filled position may receive: earlier ones, where the placeholders are, are strictly fuller. */
  lemma {:induction false} ReceiverStep(start: seq<nat>, levels: seq<nat>, marks: seq<nat>, r: nat)
    requires levels != [] && ReceiversLevel(start, levels, marks) && Placeholders(marks, r)
    ensures var b := FirstLeast(levels); ReceiversLevel(start, levels[b := levels[b] + 1], marks)
  {
  }

  lemma {:induction false} FillKeepsReceiversLevel(
    start: seq<nat>, baskets: Baskets, items: seq<string>, marks: seq<nat>, r: nat)
    requires baskets != []
    requires ReceiversLevel(start, LevelsOf(baskets), marks) && Placeholders(marks, r)
    ensures ReceiversLevel(start, LevelsOf(Fill(baskets, items)), marks)
    decreases |items|
  {
    if items != [] {
      ReceiverStep(start, LevelsOf(baskets), marks, r);
      AddItemLevels(baskets, items[0]);
      FillKeepsReceiversLevel(start, AddItem(baskets, items[0]), items[1..], marks, r);
    }
  }

  ghost predicate NoPlaceholder(baskets: Baskets, items: seq<string>, placeholder: string) {
    placeholder !in items && forall i | 0 <= i < |baskets| :: placeholder !in baskets[i]
  }

  /** A position's final total is its filled total less its placeholder. */
  lemma {:induction false} FinalLevels(baskets: Baskets, items: seq<string>, placeholder: string, r: nat)
    requires baskets != [] && r <= |baskets| && NoPlaceholder(baskets, items, placeholder)
    ensures var start := WithPlaceholders(baskets, r, placeholder);
      var filled := Fill(start, items);
      forall i | 0 <= i < |baskets| ::
        && LevelsOf(start)[i] == LevelsOf(baskets)[i] + (if i < r then 1 else 0)
        && LevelsOf(filled)[i] == LevelsOf(Without(filled, placeholder))[i] + (if i < r then 1 else 0)
  {
    var start := WithPlaceholders(baskets, r, placeholder);
    var filled := Fill(start, items);
    FillConserves(start, items, placeholder);
    forall i | 0 <= i < |baskets|
      ensures LevelsOf(start)[i] == LevelsOf(baskets)[i] + (if i < r then 1 else 0)
      ensures LevelsOf(filled)[i] == LevelsOf(Without(filled, placeholder))[i] + (if i < r then 1 else 0)
    {
      AddOneLevel(baskets[i], placeholder);
      SumValuesRemove(filled[i], placeholder);
    }
  }

  lemma {:induction false} ReceiversLevelForAnyPrefix(
    baskets: Baskets, items: seq<string>, placeholder: string, r: nat, i: nat, j: nat)
    requires baskets != [] && r <= |baskets| && NoPlaceholder(baskets, items, placeholder)
    requires i < |baskets| && j < |baskets|
    ensures var final := LevelsOf(Without(Fill(WithPlaceholders(baskets, r, placeholder), items), placeholder));
      final[i] > LevelsOf(baskets)[i] ==> final[i] <= final[j] + 1
  {
    var start := WithPlaceholders(baskets, r, placeholder);
    var marks: seq<nat> := seq(|baskets|, k => if k < r then 1 else 0);
    FinalLevels(baskets, items, placeholder, r);
    FillKeepsReceiversLevel(LevelsOf(start), start, items, marks, r);
  }

  /** Every position that gains items ends at most one above every other, however uneven the start was. */
  lemma {:induction false} ReceiversEndLevel(baskets: Baskets, items: seq<string>, placeholder: string, i: nat, j: nat)
    requires baskets != [] && NoPlaceholder(baskets, items, placeholder)
    requires i < |baskets| && j < |baskets|
    requires LevelsOf(Balanced(baskets, items, placeholder))[i] > LevelsOf(baskets)[i]
    ensures LevelsOf(Balanced(baskets, items, placeholder))[i] <= LevelsOf(Balanced(baskets, items, placeholder))[j] + 1
  {
    hide Rem, Fill, LevelsOf, Sum, NoPlaceholder;
    var r := Rem(|items| + Sum(LevelsOf(baskets)), |baskets|);
    ReceiversLevelForAnyPrefix(baskets, items, placeholder, r, i, j);
  }
}
