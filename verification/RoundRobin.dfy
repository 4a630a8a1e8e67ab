/**
 On empty nodes the placeholder balancer is a round robin: with r = total mod n, the j-th pod lands on node
 (r + j) mod n, every node ends with total/n or total/n + 1 pods, and so does every single application.
 */
module RoundRobin {
  import opened Counting
  import opened Balancing

  const POD_PLACEHOLDER := "remainder_pod"

  /** What node i holds after m items are dealt to n nodes in turn, starting with node 0. */
  function Share(n: nat, m: nat, i: nat): nat
    requires n > 0
  {
    Quot(m, n) + if i < Rem(m, n) then 1 else 0
  }

  function Shares(n: nat, m: nat): seq<nat>
    requires n > 0
  {
    seq(n, i requires 0 <= i < n => Share(n, m, i))
  }

  /** Dealing one more item adds it to node m mod n, which is the first least-filled one. */
  lemma {:induction false} ShareStep(n: nat, m: nat)
    requires n > 0
    ensures var levels, b := Shares(n, m), Rem(m, n);
      IsFirstLeast(levels, b) && Shares(n, m + 1) == levels[b := levels[b] + 1]
  {
    NextQuotRem(m, n);
  }

  lemma {:induction false} AddItemIsRoundRobin(nodes: Baskets, item: string, m: nat)
    requires nodes != [] && LevelsOf(nodes) == Shares(|nodes|, m)
    ensures FirstLeast(LevelsOf(nodes)) == Rem(m, |nodes|)
    ensures LevelsOf(AddItem(nodes, item)) == Shares(|nodes|, m + 1)
  {
    ShareStep(|nodes|, m);
    FirstLeastIsUnique(LevelsOf(nodes), Rem(m, |nodes|));
    AddItemLevels(nodes, item);
  }

  lemma {:induction false} FillIsRoundRobin(nodes: Baskets, items: seq<string>, m: nat)
    requires nodes != [] && LevelsOf(nodes) == Shares(|nodes|, m)
    ensures LevelsOf(Fill(nodes, items)) == Shares(|nodes|, m + |items|)
    decreases |items|
  {
    if items != [] {
      AddItemIsRoundRobin(nodes, items[0], m);
      FillIsRoundRobin(AddItem(nodes, items[0]), items[1..], m + 1);
    }
  }

  function EmptyNodes(n: nat): Baskets {
    seq(n, _ => map[])
  }

  lemma {:induction false} PlaceholdersAreDealt(n: nat, r: nat, placeholder: string)
    requires r < n
    ensures LevelsOf(WithPlaceholders(EmptyNodes(n), r, placeholder)) == Shares(n, r)
  {
    AddOneLevel(map[], placeholder);
  }

  lemma {:induction false} EmptyLevels(n: nat)
    ensures Sum(LevelsOf(EmptyNodes(n))) == 0
  {
    if n > 0 {
      EmptyLevels(n - 1);
      assert LevelsOf(EmptyNodes(n))[1..] == LevelsOf(EmptyNodes(n - 1));
    }
  }

  /** The node the j-th item goes to. */
  ghost function Landing(start: Baskets, items: seq<string>, j: nat): nat
    requires start != [] && j < |items|
  {
    FirstLeast(LevelsOf(Fill(start, items[..j])))
  }

  ghost function Remainder(n: nat, items: seq<string>): nat
    requires n > 0
  {
    Rem(|items|, n)
  }

  ghost function PodStart(n: nat, items: seq<string>): Baskets
    requires n > 0
  {
    WithPlaceholders(EmptyNodes(n), Remainder(n, items), POD_PLACEHOLDER)
  }

  /** The least-loaded search collapses to a round robin starting at node r. */
  lemma {:induction false} PodsLandInTurn(n: nat, items: seq<string>, j: nat)
    requires n > 0 && j < |items|
    ensures Landing(PodStart(n, items), items, j) == Rem(Remainder(n, items) + j, n)
  {
    var r := Remainder(n, items);
    PlaceholdersAreDealt(n, r, POD_PLACEHOLDER);
    var nodes := Fill(PodStart(n, items), items[..j]);
    FillIsRoundRobin(PodStart(n, items), items[..j], r);
    AddItemIsRoundRobin(nodes, items[j], r + j);
  }

  // ---------- node totals ----------

  lemma {:induction false} BalancedPods(n: nat, items: seq<string>)
    requires n > 0
    ensures Balanced(EmptyNodes(n), items, POD_PLACEHOLDER)
      == Without(Fill(PodStart(n, items), items), POD_PLACEHOLDER)
  {
    EmptyLevels(n);
  }

  lemma {:induction false} FilledLevel(n: nat, items: seq<string>, i: nat)
    requires n > 0 && i < n
    ensures LevelsOf(Fill(PodStart(n, items), items))[i] == Share(n, Rem(|items|, n) + |items|, i)
  {
    hide Rem, Quot, Share;
    PlaceholdersAreDealt(n, Remainder(n, items), POD_PLACEHOLDER);
    FillIsRoundRobin(PodStart(n, items), items, Remainder(n, items));
  }

  /** With total = q*n + r, exactly the r nodes r, r+1, ..., 2r-1 (mod n) hold q+1 pods and the others q. */
  lemma {:induction false} PodTotals(n: nat, items: seq<string>, i: nat)
    requires n > 0 && POD_PLACEHOLDER !in items && i < n
    ensures LevelsOf(Balanced(EmptyNodes(n), items, POD_PLACEHOLDER))[i]
      == Quot(|items|, n) + if Rem(i + n - Rem(|items|, n), n) < Rem(|items|, n) then 1 else 0
  {
    hide Rem, Quot, Share, Balanced, Fill, LevelsOf;
    BalancedPods(n, items);
    FilledLevel(n, items, i);
    FinalLevels(EmptyNodes(n), items, POD_PLACEHOLDER, Remainder(n, items));
    SecondRound(n, |items|, i);
  }

  lemma {:induction false} SecondRound(n: nat, total: nat, i: nat)
    requires i < n
    ensures Share(n, Rem(total, n) + total, i)
      == Quot(total, n) + (if Rem(i + n - Rem(total, n), n) < Rem(total, n) then 1 else 0)
         + if i < Rem(total, n) then 1 else 0
  {
    if total >= n {
      SecondRound(n, total - n, i);
    } else {
      var m := total + total;
      assert m < n ==> Quot(m, n) == 0 && Rem(m, n) == m;
      assert m >= n ==> m - n < n && Quot(m, n) == Quot(m - n, n) + 1 && Rem(m, n) == m - n;
      assert i >= total ==> Rem(i + n - total, n) == Rem(i - total, n) == i - total;
      assert i < total ==> Rem(i + n - total, n) == i + n - total;
    }
  }

  /** Balance: exactly r nodes hold q+1 pods and exactly n-r hold q. */
  lemma {:induction false} PodTotalsBalance(n: nat, items: seq<string>)
    requires n > 0 && POD_PLACEHOLDER !in items
    ensures var totals := multiset(LevelsOf(Balanced(EmptyNodes(n), items, POD_PLACEHOLDER)));
      && totals[Quot(|items|, n) + 1] == Rem(|items|, n)
      && totals[Quot(|items|, n)] == n - Rem(|items|, n)
  {
    hide Quot, Rem;
    var levels := LevelsOf(Balanced(EmptyNodes(n), items, POD_PLACEHOLDER));
    forall i | 0 <= i < n ensures Quot(|items|, n) <= levels[i] <= Quot(|items|, n) + 1 {
      PodTotals(n, items, i);
    }
    FinalSum(n, items);
    HighCount(levels, |items|);
  }

  /** The placeholders go and every pod stays. */
  lemma {:induction false} FinalSum(n: nat, items: seq<string>)
    requires n > 0 && POD_PLACEHOLDER !in items
    ensures Sum(LevelsOf(Balanced(EmptyNodes(n), items, POD_PLACEHOLDER))) == |items|
  {
    BalancedPods(n, items);
    SumForAnyPrefix(n, items, Remainder(n, items));
  }

  lemma {:induction false} SumForAnyPrefix(n: nat, items: seq<string>, r: nat)
    requires n > 0 && r <= n && POD_PLACEHOLDER !in items
    ensures var start := WithPlaceholders(EmptyNodes(n), r, POD_PLACEHOLDER);
      Sum(LevelsOf(Without(Fill(start, items), POD_PLACEHOLDER))) == |items|
  {
    var start := WithPlaceholders(EmptyNodes(n), r, POD_PLACEHOLDER);
    var marks: seq<nat> := seq(n, i => if i < r then 1 else 0);
    EmptyLevels(n);
    FillSum(start, items);
    FinalLevels(EmptyNodes(n), items, POD_PLACEHOLDER, r);
    SumPlus(LevelsOf(EmptyNodes(n)), marks, LevelsOf(start));
    SumPlus(LevelsOf(Without(Fill(start, items), POD_PLACEHOLDER)), marks, LevelsOf(Fill(start, items)));
  }

  // ---------- each application ----------

  lemma {:induction false} OneDealt(nodes: Baskets, app: string, m: nat, i: nat)
    requires nodes != [] && i < |nodes| && LevelsOf(nodes) == Shares(|nodes|, m)
    ensures LevelsOf(AddItem(nodes, app)) == Shares(|nodes|, m + 1)
    ensures Get(AddItem(nodes, app)[i], app) + Share(|nodes|, m, i) == Get(nodes[i], app) + Share(|nodes|, m + 1, i)
  {
    hide Share;
    AddItemIsRoundRobin(nodes, app, m);
    ShareStep(|nodes|, m);
    assert Shares(|nodes|, m + 1)[i] == Share(|nodes|, m + 1, i) && Shares(|nodes|, m)[i] == Share(|nodes|, m, i);
  }

  /** A run of one application's pods is dealt in turn too. */
  lemma {:induction false} FillOneApplication(nodes: Baskets, app: string, count: nat, m: nat, i: nat)
    requires nodes != [] && i < |nodes| && LevelsOf(nodes) == Shares(|nodes|, m)
    ensures Get(Fill(nodes, Copies(app, count))[i], app) + Share(|nodes|, m, i)
      == Get(nodes[i], app) + Share(|nodes|, m + count, i)
    decreases count
  {
    hide Share, AddItem;
    if count > 0 {
      assert Copies(app, count)[1..] == Copies(app, count - 1);
      OneDealt(nodes, app, m, i);
      FillOneApplication(AddItem(nodes, app), app, count - 1, m + 1, i);
    }
  }

  lemma {:induction false} ItemsSplit(order: seq<string>, quantity: Counts, k: nat)
    requires forall name | name in order :: name in quantity
    requires k < |order|
    ensures Items(order, quantity)
      == Items(order[..k], quantity) + Copies(order[k], quantity[order[k]]) + Items(order[k + 1..], quantity)
  {
    if k > 0 {
      ItemsSplit(order[1..], quantity, k - 1);
      assert order[1..][..k - 1] == order[..k][1..] && order[1..][k..] == order[k + 1..];
    }
  }

  lemma {:induction false} ItemsComeFromOrder(order: seq<string>, quantity: Counts, item: string)
    requires forall name | name in order :: name in quantity
    ensures item in Items(order, quantity) ==> item in order
  {
    if order != [] {
      ItemsComeFromOrder(order[1..], quantity, item);
    }
  }

  /** Each single application is spread so that any two nodes hold counts that differ by at most one. */
  lemma {:induction false} ApplicationsSpread(n: nat, order: seq<string>, quantity: Counts, k: nat, i: nat, j: nat)
    requires n > 0 && k < |order| && i < n && j < n
    requires forall name | name in order :: name in quantity
    requires forall a, b | 0 <= a < b < |order| :: order[a] != order[b]
    requires POD_PLACEHOLDER !in order
    ensures var final := Balanced(EmptyNodes(n), Items(order, quantity), POD_PLACEHOLDER);
      Get(final[i], order[k]) <= Get(final[j], order[k]) + 1
  {
    hide Balanced, Items, Quot, Rem;
    ApplicationShare(n, order, quantity, k, i);
    ApplicationShare(n, order, quantity, k, j);
  }

  /** Only the application's own run changes its count. */
  lemma {:induction false} OnlyTheRunMatters(
    start: Baskets, before: seq<string>, run: seq<string>, after: seq<string>, app: string, i: nat)
    requires i < |start| && app !in before && app !in after
    ensures Get(Fill(start, before + run + after)[i], app) == Get(Fill(Fill(start, before), run)[i], app)
    ensures Get(Fill(start, before)[i], app) == Get(start[i], app)
  {
    FillConcat(start, before + run, after);
    FillConcat(start, before, run);
    FillConserves(start, before, app);
    FillConserves(Fill(start, before + run), after, app);
  }

  /** On nodes dealt r items in turn, a run after other items gets its share. */
  lemma {:induction false} RunShare(
    start: Baskets, before: seq<string>, app: string, count: nat, after: seq<string>, r: nat, i: nat)
    requires start != [] && i < |start| && LevelsOf(start) == Shares(|start|, r)
    requires app !in before && app !in after
    ensures Get(Fill(start, before + Copies(app, count) + after)[i], app) + Share(|start|, r + |before|, i)
      == Get(start[i], app) + Share(|start|, r + |before| + count, i)
  {
    hide Share, Fill;
    OnlyTheRunMatters(start, before, Copies(app, count), after, app, i);
    FillIsRoundRobin(start, before, r);
    FillOneApplication(Fill(start, before), app, count, r + |before|, i);
  }

  /** The application's pods on one node: its share of a contiguous run of the round robin. */
  lemma {:induction false} ApplicationShare(n: nat, order: seq<string>, quantity: Counts, k: nat, i: nat)
    requires n > 0 && k < |order| && i < n
    requires forall name | name in order :: name in quantity
    requires forall a, b | 0 <= a < b < |order| :: order[a] != order[b]
    requires POD_PLACEHOLDER !in order
    ensures var items := Items(order, quantity);
      var first := Rem(|items|, n) + |Items(order[..k], quantity)|;
      Get(Balanced(EmptyNodes(n), items, POD_PLACEHOLDER)[i], order[k])
        == Share(n, first + quantity[order[k]], i) - Share(n, first, i)
  {
    hide Rem, Quot, Share, Balanced, Items, Fill;
    var app, items := order[k], Items(order, quantity);
    BalancedPods(n, items);
    ItemsSplit(order, quantity, k);
    ItemsComeFromOrder(order[..k], quantity, app);
    ItemsComeFromOrder(order[k + 1..], quantity, app);
    PlaceholdersAreDealt(n, Remainder(n, items), POD_PLACEHOLDER);
    RunShare(PodStart(n, items), Items(order[..k], quantity), app, quantity[app], Items(order[k + 1..], quantity),
             Remainder(n, items), i);
  }
}
