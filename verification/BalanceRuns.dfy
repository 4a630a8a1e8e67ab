/**
 What the placeholder balancer does, told without its own functions: r = total mod n placeholders in front, one item
 after the other to the first least-filled position, and the placeholders taken away.  And when, starting from an
 uneven distribution, that evens everything out.
 */
module BalanceRuns {
  import opened Counting
  import opened Balancing

  // ---------- the items ----------

  /** The items come kind by kind, in dictionary order, each as often as its quantity says. */
  ghost predicate Listed(order: seq<string>, quantity: Counts, items: seq<string>) {
    && (forall item :: multiset(items)[item] == if item in order && item in quantity then quantity[item] else 0)
    && (forall i, j | 0 <= i < j < |items| :: NotLater(order, items[i], items[j]))
  }

  ghost predicate NotLater(order: seq<string>, a: string, b: string) {
    a == b || exists i, j :: 0 <= i < j < |order| && order[i] == a && order[j] == b
  }

  lemma {:induction false} FirstIsNotLater(order: seq<string>, b: string)
    requires order != [] && b in order
    ensures NotLater(order, order[0], b)
  {
    var j :| 0 <= j < |order| && order[j] == b;
    assert j == 0 || order[0] == order[0];
  }

  lemma {:induction false} ItemsListedOnly(order: seq<string>, quantity: Counts)
    requires forall name | name in order :: name in quantity
    ensures forall item | item in Items(order, quantity) :: item in order
  {
    if order != [] {
      ItemsListedOnly(order[1..], quantity);
    }
  }

  lemma {:induction false} ItemsFollowOrder(order: seq<string>, quantity: Counts, i: nat, j: nat)
    requires forall name | name in order :: name in quantity
    requires i < j < |Items(order, quantity)|
    ensures NotLater(order, Items(order, quantity)[i], Items(order, quantity)[j])
  {
    ItemsListedOnly(order, quantity);
    var items, n := Items(order, quantity), quantity[order[0]];
    hide NotLater;
    if i < n {
      assert items[i] == order[0] && items[j] in items;
      FirstIsNotLater(order, items[j]);
    } else {
      ItemsFollowOrder(order[1..], quantity, i - n, j - n);
      NotLaterInTail(order, items[i], items[j]);
    }
  }

  lemma {:induction false} NotLaterInTail(order: seq<string>, a: string, b: string)
    requires order != [] && NotLater(order[1..], a, b)
    ensures NotLater(order, a, b)
  {
    if a != b {
      var i, j :| 0 <= i < j < |order[1..]| && order[1..][i] == a && order[1..][j] == b;
      assert order[i + 1] == a && order[j + 1] == b;
    }
  }

  lemma {:induction false} NotLaterOneWay(order: seq<string>, a: string, b: string)
    requires forall i, j | 0 <= i < j < |order| :: order[i] != order[j]
    requires NotLater(order, a, b) && NotLater(order, b, a)
    ensures a == b
  {
  }

  lemma {:induction false} TailCounts(s: seq<string>)
    requires s != []
    ensures multiset(s[1..]) == multiset(s) - multiset{s[0]}
  {
    assert s == [s[0]] + s[1..];
  }

  /** A list in order starts with what all others follow. */
  lemma {:induction false} SameHead(order: seq<string>, s: seq<string>, t: seq<string>)
    requires forall i, j | 0 <= i < j < |order| :: order[i] != order[j]
    requires s != [] && t != [] && s[0] in t && t[0] in s
    requires forall i, j | 0 <= i < j < |s| :: NotLater(order, s[i], s[j])
    requires forall i, j | 0 <= i < j < |t| :: NotLater(order, t[i], t[j])
    ensures s[0] == t[0]
  {
    hide NotLater;
    var k :| 0 <= k < |t| && t[k] == s[0];
    var m :| 0 <= m < |s| && s[m] == t[0];
    if k > 0 && m > 0 {
      NotLaterOneWay(order, s[0], t[0]);
    }
  }

  /** There is one such list only. */
  lemma {:induction false} SameListing(order: seq<string>, s: seq<string>, t: seq<string>)
    requires forall i, j | 0 <= i < j < |order| :: order[i] != order[j]
    requires multiset(s) == multiset(t)
    requires forall i, j | 0 <= i < j < |s| :: NotLater(order, s[i], s[j])
    requires forall i, j | 0 <= i < j < |t| :: NotLater(order, t[i], t[j])
    ensures s == t
  {
    hide NotLater;
    assert |s| == |multiset(s)| == |t|;
    if s != [] {
      assert s[0] in multiset(t) && t[0] in multiset(s);
      SameHead(order, s, t);
      TailCounts(s);
      TailCounts(t);
      SameListing(order, s[1..], t[1..]);
      assert s == [s[0]] + s[1..] && t == [t[0]] + t[1..];
    }
  }

  lemma {:induction false} ItemsListed(order: seq<string>, quantity: Counts)
    requires forall name | name in order :: name in quantity
    requires forall i, j | 0 <= i < j < |order| :: order[i] != order[j]
    ensures Listed(order, quantity, Items(order, quantity))
  {
    hide NotLater, Items;
    forall i, j | 0 <= i < j < |Items(order, quantity)|
      ensures NotLater(order, Items(order, quantity)[i], Items(order, quantity)[j])
    {
      ItemsFollowOrder(order, quantity, i, j);
    }
    forall item ensures multiset(Items(order, quantity))[item] == if item in order then quantity[item] else 0 {
      ItemsCount(order, quantity, item);
    }
  }

  lemma {:induction false} SameCounts(order: seq<string>, quantity: Counts, s: seq<string>, t: seq<string>)
    requires Listed(order, quantity, s) && Listed(order, quantity, t)
    ensures multiset(s) == multiset(t)
  {
    hide NotLater;
    assert forall item :: multiset(s)[item] == multiset(t)[item];
  }

  lemma {:induction false} ItemsAre(order: seq<string>, quantity: Counts, items: seq<string>)
    requires forall name | name in order :: name in quantity
    requires forall i, j | 0 <= i < j < |order| :: order[i] != order[j]
    ensures Listed(order, quantity, items) <==> items == Items(order, quantity)
  {
    hide NotLater, Items;
    ItemsListed(order, quantity);
    if Listed(order, quantity, items) {
      SameCounts(order, quantity, items, Items(order, quantity));
      SameListing(order, items, Items(order, quantity));
    }
  }

  // ---------- the run ----------

  ghost function Held(baskets: Baskets): nat {
    if baskets == [] then 0 else Held(baskets[..|baskets| - 1]) + SumValues(baskets[|baskets| - 1])
  }

  /** b holds least, and is the first that does. */
  ghost predicate Receives(baskets: Baskets, b: nat) {
    && b < |baskets|
    && forall i | 0 <= i < |baskets| ::
         SumValues(baskets[b]) < SumValues(baskets[i]) || (SumValues(baskets[b]) == SumValues(baskets[i]) && b <= i)
  }

  ghost predicate Given(before: Baskets, item: string, after: Baskets) {
    exists b :: 0 <= b < |before| && Receives(before, b) &&
      after == before[b := before[b][item := (if item in before[b] then before[b][item] else 0) + 1]]
  }

  ghost predicate Run(start: Baskets, items: seq<string>, placeholder: string, states: seq<Baskets>)
    requires start != []
  {
    var remainder := (|items| + Held(start)) % |start|;
    && |states| == |items| + 1
    && (forall j | 0 <= j < |states| :: |states[j]| == |start|)
    && (forall i | 0 <= i < |start| :: states[0][i] ==
          if i < remainder then
            start[i][placeholder := (if placeholder in start[i] then start[i][placeholder] else 0) + 1]
          else start[i])
    && (forall j | 0 <= j < |items| :: Given(states[j], items[j], states[j + 1]))
  }

  lemma {:induction false} HeldIsSum(baskets: Baskets)
    ensures Held(baskets) == Sum(LevelsOf(baskets))
  {
    if baskets != [] {
      var front := baskets[..|baskets| - 1];
      HeldIsSum(front);
      SumAppend(LevelsOf(front), SumValues(baskets[|baskets| - 1]));
      assert LevelsOf(baskets) == LevelsOf(front) + [SumValues(baskets[|baskets| - 1])];
    }
  }

  lemma {:induction false} ReceiverIsFirstLeast(baskets: Baskets, b: nat)
    requires baskets != []
    ensures Receives(baskets, b) <==> b == FirstLeast(LevelsOf(baskets))
  {
    var levels := LevelsOf(baskets);
    if Receives(baskets, b) {
      assert IsFirstLeast(levels, b);
      FirstLeastIsUnique(levels, b);
    }
    if b == FirstLeast(levels) {
      forall i | 0 <= i < |baskets|
        ensures SumValues(baskets[b]) < SumValues(baskets[i])
          || (SumValues(baskets[b]) == SumValues(baskets[i]) && b <= i)
      {
        assert levels[b] <= levels[i] && (i < b ==> levels[b] < levels[i]);
      }
    }
  }

  lemma {:induction false} GivenIsAdded(before: Baskets, item: string, after: Baskets)
    requires before != []
    ensures Given(before, item, after) <==> after == AddItem(before, item)
  {
    var least := FirstLeast(LevelsOf(before));
    ReceiverIsFirstLeast(before, least);
    forall b | 0 <= b < |before| && Receives(before, b) ensures b == least {
      ReceiverIsFirstLeast(before, b);
    }
  }

  lemma {:induction false} RunIsFilling(
    start: Baskets, items: seq<string>, placeholder: string, states: seq<Baskets>, j: nat)
    requires start != [] && Run(start, items, placeholder, states) && j <= |items|
    ensures Fill(states[0], items) == Fill(states[j], items[j..])
  {
    if j == 0 {
      assert items[0..] == items;
    } else {
      RunIsFilling(start, items, placeholder, states, j - 1);
      assert Given(states[j - 1], items[j - 1], states[j]);
      GivenIsAdded(states[j - 1], items[j - 1], states[j]);
      assert items[j - 1..][1..] == items[j..];
    }
  }

  lemma {:induction false} RunEnds(start: Baskets, items: seq<string>, placeholder: string, states: seq<Baskets>)
    requires start != [] && Run(start, items, placeholder, states)
    ensures |states| == |items| + 1 && states[0] != [] && states[|items|] == Fill(states[0], items)
  {
    assert |states[0]| == |start|;
    RunIsFilling(start, items, placeholder, states, |items|);
    assert items[|items|..] == [];
  }

  lemma {:induction false} RunStarts(start: Baskets, items: seq<string>, placeholder: string, states: seq<Baskets>)
    requires start != [] && Run(start, items, placeholder, states)
    ensures states != [] && states[0] == WithPlaceholders(start, (|items| + Held(start)) % |start|, placeholder)
  {
    hide Held;
  }

  /** The balancer returns the end of the run, without the placeholders. */
  lemma {:induction false} BalancedIsTheRun(
    start: Baskets, items: seq<string>, placeholder: string, states: seq<Baskets>, i: nat)
    requires start != [] && Run(start, items, placeholder, states) && i < |start|
    ensures |states| == |items| + 1 && |states[|items|]| == |start|
    ensures Balanced(start, items, placeholder)[i] == states[|items|][i] - {placeholder}
  {
    RunStarts(start, items, placeholder, states);
    RunEnds(start, items, placeholder, states);
    hide Run, Held, WithPlaceholders, Fill, Balanced;
    BalancedWith(start, items, placeholder, (|items| + Held(start)) % |start|);
  }

  /** There is such a run. */
  lemma {:induction false} RunExists(start: Baskets, items: seq<string>, placeholder: string)
    returns (states: seq<Baskets>)
    requires start != []
    ensures Run(start, items, placeholder, states)
  {
    var remainder := (|items| + Held(start)) % |start|;
    states := [seq(|start|, i requires 0 <= i < |start| =>
      if i < remainder then
        start[i][placeholder := (if placeholder in start[i] then start[i][placeholder] else 0) + 1]
      else start[i])];
    ghost var first := states[0];
    for k := 0 to |items|
      invariant |states| == k + 1 && states[0] == first
      invariant forall j | 0 <= j <= k :: |states[j]| == |start|
      invariant forall j | 0 <= j < k :: Given(states[j], items[j], states[j + 1])
    {
      var next := AddItem(states[k], items[k]);
      GivenIsAdded(states[k], items[k], next);
      states := states + [next];
    }
  }

  // ---------- evening out an uneven start ----------

  lemma {:induction false} SumAtLeast(levels: seq<nat>, m: nat)
    requires forall i | 0 <= i < |levels| :: levels[i] >= m
    ensures Sum(levels) >= |levels| * m
  {
    if levels != [] {
      SumAtLeast(levels[1..], m);
      NextMultiple(|levels| - 1, m);
    }
  }

  /** Filling stays at or below a height that the total cannot reach everywhere. */
  lemma {:induction false} FillStaysBelow(baskets: Baskets, items: seq<string>, m: nat)
    requires baskets != [] && forall i | 0 <= i < |baskets| :: LevelsOf(baskets)[i] <= m
    requires Sum(LevelsOf(baskets)) + |items| < |baskets| * m
    ensures forall i | 0 <= i < |baskets| :: LevelsOf(Fill(baskets, items))[i] <= m
    decreases |items|
  {
    hide LevelsOf, AddItem, Sum;
    if items != [] {
      var levels, b := LevelsOf(baskets), FirstLeast(LevelsOf(baskets));
      AddItemLevels(baskets, items[0]);
      SumUpdate(levels, b, levels[b] + 1);
      if levels[b] >= m {
        SumAtLeast(levels, m);
      }
      FillStaysBelow(AddItem(baskets, items[0]), items[1..], m);
    }
  }

  /** At most q everywhere but where the start was q+1 already. */
  ghost predicate HighOnlyFromStart(start: seq<nat>, levels: seq<nat>, q: nat) {
    |start| == |levels| && forall i | 0 <= i < |levels| :: levels[i] <= q || levels[i] == q + 1 == start[i]
  }

  lemma {:induction false} SumWithHigh(start: seq<nat>, levels: seq<nat>, q: nat)
    requires HighOnlyFromStart(start, levels, q)
    ensures Sum(levels) <= |levels| * q + multiset(start)[q + 1]
  {
    if levels != [] {
      SumWithHigh(start[1..], levels[1..], q);
      CountCons(start, q + 1);
      NextMultiple(|levels| - 1, q);
    }
  }

  lemma {:induction false} SumWithOneLow(start: seq<nat>, levels: seq<nat>, q: nat, j: nat)
    requires HighOnlyFromStart(start, levels, q) && j < |levels| && levels[j] < q
    ensures Sum(levels) < |levels| * q + multiset(start)[q + 1]
  {
    CountCons(start, q + 1);
    NextMultiple(|levels| - 1, q);
    if j == 0 {
      SumWithHigh(start[1..], levels[1..], q);
    } else {
      SumWithOneLow(start[1..], levels[1..], q, j - 1);
    }
  }

  lemma {:induction false} CountGrows(s: seq<nat>, t: seq<nat>, v: nat)
    requires |s| == |t| && forall i | 0 <= i < |s| && s[i] == v :: t[i] == v
    ensures multiset(s)[v] <= multiset(t)[v]
  {
    if s != [] {
      CountCons(s, v);
      CountCons(t, v);
      CountGrows(s[1..], t[1..], v);
    }
  }

  lemma {:induction false} ReceiversNearest(baskets: Baskets, items: seq<string>, i: nat, j: nat)
    requires i < |baskets| && j < |baskets|
    ensures LevelsOf(Fill(baskets, items))[i] >= LevelsOf(baskets)[i]
    ensures LevelsOf(Fill(baskets, items))[i] > LevelsOf(baskets)[i] ==>
      LevelsOf(Fill(baskets, items))[i] <= LevelsOf(Fill(baskets, items))[j] + 1
  {
    var zeros: seq<nat> := seq(|baskets|, _ => 0);
    FillKeepsReceiversLevel(LevelsOf(baskets), baskets, items, zeros, 0);
  }

  /** Filling levels everything to q or q+1 exactly when the start is not above that and not too often at q+1. */
  lemma {:induction false} FillLevelsExactlyWhen(baskets: Baskets, items: seq<string>, q: nat, rest: nat)
    requires baskets != [] && rest < |baskets|
    requires Sum(LevelsOf(baskets)) + |items| == |baskets| * q + rest
    ensures (forall i | 0 <= i < |baskets| :: q <= LevelsOf(Fill(baskets, items))[i] <= q + 1) <==>
            (forall i | 0 <= i < |baskets| :: LevelsOf(baskets)[i] <= q + 1) &&
            multiset(LevelsOf(baskets))[q + 1] <= rest
  {
    hide LevelsOf, Fill, Sum;
    var start, levels := LevelsOf(baskets), LevelsOf(Fill(baskets, items));
    FillSum(baskets, items);
    forall i, j | 0 <= i < |baskets| && 0 <= j < |baskets|
      ensures levels[i] >= start[i] && (levels[i] > start[i] ==> levels[i] <= levels[j] + 1)
    {
      ReceiversNearest(baskets, items, i, j);
    }
    if forall i | 0 <= i < |baskets| :: q <= levels[i] <= q + 1 {
      HowManyHigh(levels, q);
      CountGrows(start, levels, q + 1);
    }
    if (forall i | 0 <= i < |baskets| :: start[i] <= q + 1) && multiset(start)[q + 1] <= rest {
      NextMultiple(|baskets|, q);
      assert |baskets| * (q + 1) == |baskets| * q + |baskets|;
      FillStaysBelow(baskets, items, q + 1);
      forall j | 0 <= j < |baskets| ensures levels[j] >= q {
        if levels[j] < q {
          SumWithOneLow(start, levels, q, j);
        }
      }
    }
  }

  /** A basket with its placeholder, if it gets one. */
  ghost function Marked(baskets: Baskets, r: nat): seq<nat> {
    seq(|baskets|, i requires 0 <= i < |baskets| => SumValues(baskets[i]) + if i < r then 1 else 0)
  }

  lemma {:induction false} MarksSum(n: nat, r: nat)
    requires r <= n
    ensures Sum(seq(n, i => if i < r then 1 else 0)) == r
  {
    if n > 0 {
      var marks: seq<nat> := seq(n, i => if i < r then 1 else 0);
      var front: seq<nat> := seq(n - 1, i => if i < (if r == n then r - 1 else r) then 1 else 0);
      MarksSum(n - 1, if r == n then r - 1 else r);
      assert marks == front + [if n - 1 < r then 1 else 0];
      SumAppend(front, if n - 1 < r then 1 else 0);
    }
  }

  lemma {:induction false} MarkedSum(baskets: Baskets, r: nat)
    requires r <= |baskets|
    ensures Sum(Marked(baskets, r)) == Held(baskets) + r
  {
    HeldIsSum(baskets);
    MarksSum(|baskets|, r);
    SumPlus(LevelsOf(baskets), seq(|baskets|, i => if i < r then 1 else 0), Marked(baskets, r));
  }

  lemma {:induction false} MarkedLevels(start: Baskets, items: seq<string>, placeholder: string, r: nat)
    requires start != [] && r <= |start| && NoPlaceholder(start, items, placeholder)
    ensures var filled := Fill(WithPlaceholders(start, r, placeholder), items);
      && LevelsOf(WithPlaceholders(start, r, placeholder)) == Marked(start, r)
      && LevelsOf(filled) == Marked(Without(filled, placeholder), r)
  {
    hide Fill, Rem;
    FinalLevels(start, items, placeholder, r);
  }

  lemma {:induction false} EvensOutForAnyPrefix(
    start: Baskets, items: seq<string>, placeholder: string, r: nat, q: nat, rest: nat)
    requires start != [] && r <= |start| && NoPlaceholder(start, items, placeholder)
    requires rest < |start| && |items| + Held(start) + r == |start| * q + rest
    ensures var final := Without(Fill(WithPlaceholders(start, r, placeholder), items), placeholder);
      (forall i | 0 <= i < |start| :: q <= Marked(final, r)[i] <= q + 1) <==>
      (forall i | 0 <= i < |start| :: Marked(start, r)[i] <= q + 1) && multiset(Marked(start, r))[q + 1] <= rest
  {
    MarkedSum(start, r);
    MarkedLevels(start, items, placeholder, r);
    hide Fill, Held, Sum, LevelsOf, Marked, Without, WithPlaceholders;
    FillLevelsExactlyWhen(WithPlaceholders(start, r, placeholder), items, q, rest);
  }

  lemma {:induction false} BalancedWith(start: Baskets, items: seq<string>, placeholder: string, r: nat)
    requires start != [] && r == (|items| + Held(start)) % |start|
    ensures Balanced(start, items, placeholder)
      == Without(Fill(WithPlaceholders(start, r, placeholder), items), placeholder)
  {
    hide Rem, Fill, Held, Sum, LevelsOf, WithPlaceholders, Without;
    HeldIsSum(start);
    QuotRemMeaning(|items| + Held(start), |start|);
  }

  /**
   From any start: with r placeholders in front, and q the average of everything with them, every basket ends at q or
   q+1, placeholder included, exactly when none starts above q+1 and no more start at q+1 than can end there.
   */
  lemma {:induction false} EvensOutExactlyWhen(start: Baskets, items: seq<string>, placeholder: string)
    requires start != [] && NoPlaceholder(start, items, placeholder)
    ensures var n, total := |start|, |items| + Held(start);
      var r := total % n;
      var q, rest := (total + r) / n, (total + r) % n;
      (forall i | 0 <= i < n :: q <= Marked(Balanced(start, items, placeholder), r)[i] <= q + 1) <==>
      (forall i | 0 <= i < n :: Marked(start, r)[i] <= q + 1) && multiset(Marked(start, r))[q + 1] <= rest
  {
    hide Balanced, Fill, Sum, Held, LevelsOf, WithPlaceholders, NoPlaceholder, Without, Marked;
    var n, total := |start|, |items| + Held(start);
    var r := total % n;
    BalancedWith(start, items, placeholder, r);
    EvensOutForAnyPrefix(start, items, placeholder, r, (total + r) / n, (total + r) % n);
  }

  lemma {:induction false} HeldAppend(baskets: Baskets, m: Counts)
    ensures Held(baskets + [m]) == Held(baskets) + SumValues(m)
  {
    assert (baskets + [m])[..|baskets|] == baskets;
  }

  lemma {:induction false} NothingToDo(start: Baskets, placeholder: string)
    requires start != [] && Held(start) % |start| == 0 && NoPlaceholder(start, [], placeholder)
    ensures Balanced(start, [], placeholder) == start
  {
    BalancedWith(start, [], placeholder, 0);
    hide Balanced, Held;
    forall i | 0 <= i < |start| ensures start[i] - {placeholder} == start[i] {
    }
    assert WithPlaceholders(start, 0, placeholder) == start;
    assert Without(start, placeholder) == start;
  }

  lemma {:induction false} HeldOfThree(x: Counts, y: Counts, z: Counts)
    ensures Held([x, y, z]) == SumValues(x) + SumValues(y) + SumValues(z)
  {
    HeldAppend([], x);
    HeldAppend([x], y);
    HeldAppend([x, y], z);
    assert [] + [x] == [x] && [x] + [y] == [x, y] && [x, y] + [z] == [x, y, z];
  }

  /** A start not above q+1 is not enough: two baskets of three and an empty one stay as they are, and q is 2. */
  lemma {:induction false} HighStartsStay()
    ensures var three: Counts := map["a" := 3];
      Held([three, three, map[]]) == 6 && Balanced([three, three, map[]], [], "p") == [three, three, map[]]
  {
    var three: Counts := map["a" := 3];
    SumValuesUpdate(map[], "a", 3);
    HeldOfThree(three, three, map[]);
    hide Held, Balanced;
    NothingToDo([three, three, map[]], "p");
  }
}
