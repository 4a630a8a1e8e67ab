/** Greedy coin change (modules/server/test.py), and for which coin systems it uses the fewest coins. */
module Coins {
  import opened StableSort

  type Coin = n: nat | 0 < n witness 1

  function Value(c: Coin): nat { c }

  function ByValue(): Coin -> nat { c => Value(c) }

  function Total(coins: seq<Coin>): nat {
    if coins == [] then 0 else coins[0] + Total(coins[1..])
  }

  /** What the loops collect, trying the coins in the given order. */
  function Greedy(coins: seq<Coin>, amount: int): seq<Coin>
    decreases |coins|, amount
  {
    if coins == [] then []
    else if amount >= coins[0] then [coins[0]] + Greedy(coins, amount - coins[0])
    else Greedy(coins[1..], amount)
  }

  /** The list is sorted in place; then each coin is taken while it fits. */
  method GreedyCoinChange(amount: int, denominations: array<Coin>) returns (used: seq<Coin>)
    modifies denominations
    ensures denominations[..] == SortDescending(ByValue(), old(denominations[..]))
    ensures used == Greedy(denominations[..], amount)
  {
    SortInPlace(denominations);
    var left := amount;
    used := [];
    for i := 0 to denominations.Length
      invariant used + Greedy(denominations[i..], left) == Greedy(denominations[..], amount)
    {
      var coin := denominations[i];
      ghost var rest := denominations[i..];
      assert rest[1..] == denominations[i + 1..];
      while left >= coin
        invariant used + Greedy(rest, left) == Greedy(denominations[..], amount)
        decreases left
      {
        assert used + Greedy(rest, left) == (used + [coin]) + Greedy(rest, left - coin);
        used := used + [coin];
        left := left - coin;
      }
    }
  }

  /** `list.sort(reverse=True)` */
  method SortInPlace(a: array<Coin>)
    modifies a
    ensures a[..] == SortDescending(ByValue(), old(a[..]))
  {
    var sorted := SortDescending(ByValue(), a[..]);
    SortPermutes(ByValue(), a[..]);
    assert |sorted| == |multiset(sorted)| == |multiset(a[..])| == a.Length;
    for i := 0 to a.Length
      invariant a[..i] == sorted[..i]
    {
      a[i] := sorted[i];
    }
    assert a[..] == a[..a.Length] == sorted;
  }

  // ---------- what is paid ----------

  /** The change never overshoots, and what is left is less than every coin: nothing when there is a coin of 1. */
  lemma {:induction false} GreedyPays(coins: seq<Coin>, amount: nat)
    ensures Total(Greedy(coins, amount)) <= amount
    ensures forall c | c in coins :: amount - Total(Greedy(coins, amount)) < c
    ensures forall c | c in Greedy(coins, amount) :: c in coins
    decreases |coins|, amount
  {
    if coins != [] {
      if amount >= coins[0] {
        GreedyPays(coins, amount - coins[0]);
      } else {
        GreedyPays(coins[1..], amount);
        assert coins == [coins[0]] + coins[1..];
      }
    }
  }

  /** The first coin used is the largest that fits, and so on with what is left, until none fits. */
  ghost predicate TakesLargest(coins: seq<Coin>, amount: int, used: seq<Coin>) {
    if used == [] then forall c | c in coins :: c > amount
    else
      && used[0] in coins && used[0] <= amount && (forall c | c in coins && c <= amount :: c <= used[0])
      && TakesLargest(coins, amount - used[0], used[1..])
  }

  /** A coin that is too large plays no part. */
  lemma {:induction false} SmallerOnly(coins: seq<Coin>, amount: int, used: seq<Coin>)
    requires coins != [] && amount < coins[0]
    ensures TakesLargest(coins, amount, used) <==> TakesLargest(coins[1..], amount, used)
    decreases |used|
  {
    assert forall c | c in coins :: c == coins[0] || c in coins[1..];
    assert forall c | c in coins[1..] :: c in coins;
    if used != [] {
      SmallerOnly(coins, amount - used[0], used[1..]);
    }
  }

  /** The change is the one list that does so, whatever the amount. */
  lemma {:induction false} GreedyIs(coins: seq<Coin>, amount: int, used: seq<Coin>)
    requires Descending(ByValue(), coins)
    ensures used == Greedy(coins, amount) <==> TakesLargest(coins, amount, used)
    decreases |coins|, amount
  {
    if coins != [] {
      assert forall c | c in coins :: ByValue()(coins[0]) >= ByValue()(c);
      if amount < coins[0] {
        GreedyIs(coins[1..], amount, used);
        SmallerOnly(coins, amount, used);
      } else {
        var taken := Greedy(coins, amount - coins[0]);
        assert Greedy(coins, amount) == [coins[0]] + taken && coins[0] in coins;
        if used != [] && used[0] == coins[0] {
          GreedyIs(coins, amount - coins[0], used[1..]);
          assert used == [coins[0]] + used[1..];
        }
      }
    }
  }

  // ---------- optimality ----------

  function Count(coins: seq<Coin>, amount: int): nat {
    |Greedy(coins, amount)|
  }

  /** No payment of the amount with these coins uses fewer of them. */
  ghost predicate Optimal(coins: seq<Coin>, amount: nat) {
    forall payment: seq<Coin> | (forall c | c in payment :: c in coins) && Total(payment) == amount ::
      Count(coins, amount) <= |payment|
  }

  /** Paying one coin first never gains more than that coin. */
  ghost predicate NoGain(coins: seq<Coin>) {
    forall c, amount: nat | c in coins && c <= amount :: Count(coins, amount) <= Count(coins, amount - c) + 1
  }

  lemma {:induction false} NothingToPay(coins: seq<Coin>)
    ensures Greedy(coins, 0) == []
  {
    if coins != [] {
      NothingToPay(coins[1..]);
    }
  }

  lemma {:induction false} NoGainBeatsAny(coins: seq<Coin>, payment: seq<Coin>)
    requires NoGain(coins) && forall c | c in payment :: c in coins
    ensures Count(coins, Total(payment)) <= |payment|
  {
    if payment == [] {
      NothingToPay(coins);
    } else {
      NoGainBeatsAny(coins, payment[1..]);
      assert payment[0] in payment && payment[0] <= Total(payment);
    }
  }

  /** With a coin of 1, greedy is optimal for every amount exactly when no first coin gains. */
  lemma {:induction false} OptimalExactlyWhenNoGain(coins: seq<Coin>)
    requires 1 in coins
    ensures (forall amount: nat :: Optimal(coins, amount)) <==> NoGain(coins)
  {
    if NoGain(coins) {
      forall amount: nat ensures Optimal(coins, amount) {
        forall payment: seq<Coin> | (forall c | c in payment :: c in coins) && Total(payment) == amount
          ensures Count(coins, amount) <= |payment|
        {
          NoGainBeatsAny(coins, payment);
        }
      }
    }
    if forall amount: nat :: Optimal(coins, amount) {
      forall c, amount: nat | c in coins && c <= amount
        ensures Count(coins, amount) <= Count(coins, amount - c) + 1
      {
        var rest := Greedy(coins, amount - c);
        GreedyPays(coins, amount - c);
        assert Optimal(coins, amount);
        assert Total([c] + rest) == amount by {
          assert ([c] + rest)[1..] == rest;
        }
      }
    }
  }

  // ---------- optimality, decided by finitely many amounts ----------

  /** The sum of the two largest coins of a descending list. */
  function Bound(coins: seq<Coin>): nat {
    if coins == [] then 0 else coins[0] + if |coins| > 1 then coins[1] else 0
  }

  ghost predicate NoGainBelow(coins: seq<Coin>, bound: nat) {
    forall c, amount: nat | c in coins && c <= amount < bound :: Count(coins, amount) <= Count(coins, amount - c) + 1
  }

  /** Above the bound the largest coin is taken on both sides. */
  lemma {:induction false} NoGainAnywhere(coins: seq<Coin>, c: Coin, amount: nat)
    requires Descending(ByValue(), coins) && NoGainBelow(coins, Bound(coins)) && c in coins && c <= amount
    ensures Count(coins, amount) <= Count(coins, amount - c) + 1
    decreases amount
  {
    var i :| 0 <= i < |coins| && coins[i] == c;
    assert i > 0 ==> ByValue()(coins[0]) >= ByValue()(coins[1]) >= ByValue()(coins[i]);
    if i > 0 && amount >= Bound(coins) {
      NoGainAnywhere(coins, c, amount - coins[0]);
    }
  }

  lemma {:induction false} NoGainIsFinite(coins: seq<Coin>)
    requires Descending(ByValue(), coins)
    ensures NoGain(coins) <==> NoGainBelow(coins, Bound(coins))
  {
    if NoGainBelow(coins, Bound(coins)) {
      forall c, amount: nat | c in coins && c <= amount
        ensures Count(coins, amount) <= Count(coins, amount - c) + 1
      {
        NoGainAnywhere(coins, c, amount);
      }
    }
  }

  /** Every amount is paid exactly when there is a coin of 1. */
  lemma {:induction false} PaysAllExactlyWhenOne(coins: seq<Coin>)
    ensures (forall amount: nat :: Total(Greedy(coins, amount)) == amount) <==> 1 in coins
  {
    if 1 in coins {
      forall amount: nat ensures Total(Greedy(coins, amount)) == amount {
        GreedyPays(coins, amount);
      }
    } else {
      var one: nat := 1;
      GreedyPays(coins, one);
      assert Total(Greedy(coins, one)) != one;
    }
  }

  /**
   For any list of coins: the program pays every amount, and with the fewest coins, exactly when 1 is among them and
   no first coin gains for the amounts below the sum of the two largest.
   */
  lemma {:induction false} FewestCoinsExactlyWhen(list: seq<Coin>)
    ensures var coins := SortDescending(ByValue(), list);
      (forall amount: nat :: Total(Greedy(coins, amount)) == amount && Optimal(coins, amount)) <==>
        1 in list && NoGainBelow(coins, Bound(coins))
  {
    hide SortDescending, Greedy, Optimal, NoGain, NoGainBelow, Bound;
    var coins := SortDescending(ByValue(), list);
    SortDescends(ByValue(), list);
    SortPermutes(ByValue(), list);
    assert 1 in list <==> 1 in multiset(coins);
    PaysAllExactlyWhenOne(coins);
    NoGainIsFinite(coins);
    if 1 in coins {
      OptimalExactlyWhenNoGain(coins);
    }
  }

  // ---------- divisor chains ----------

  ghost predicate DivisorChain(coins: seq<Coin>) {
    forall i | 0 <= i < |coins| - 1 :: Multiple(coins[i], coins[i + 1])
  }

  /** d is a positive multiple of e. */
  predicate Multiple(d: nat, e: Coin) {
    d == e || (d > e && Multiple(d - e, e))
  }

  lemma {:induction false} ChainTail(coins: seq<Coin>)
    requires coins != [] && DivisorChain(coins)
    ensures DivisorChain(coins[1..])
  {
    forall i | 0 <= i < |coins[1..]| - 1 ensures Multiple(coins[1..][i], coins[1..][i + 1]) {
      assert coins[1..][i] == coins[i + 1] && coins[1..][i + 1] == coins[i + 2];
    }
  }

  lemma {:induction false} ChainHeadIsLargest(coins: seq<Coin>, c: Coin)
    requires DivisorChain(coins) && c in coins
    ensures c <= coins[0]
  {
    if c != coins[0] {
      ChainTail(coins);
      ChainHeadIsLargest(coins[1..], c);
      assert Multiple(coins[0], coins[1]);
    }
  }

  /** Making the amount larger by d - c, with d a multiple of the largest coin, never takes fewer coins. */
  lemma {:induction false} FillingUpCosts(coins: seq<Coin>, r: nat, c: Coin, d: nat)
    requires DivisorChain(coins) && c in coins && r < c && Multiple(d, coins[0])
    ensures c <= d
    ensures Count(coins, r) <= Count(coins, r + d - c)
    decreases |coins|, d
  {
    ChainHeadIsLargest(coins, c);
    var e := coins[0];
    if d > e {
      FillingUpCosts(coins, r, c, d - e);
    } else if c < e {
      ChainTail(coins);
      assert c in coins[1..];
      assert Multiple(coins[0], coins[1]);
      FillingUpCosts(coins[1..], r, c, e);
    }
  }

  lemma {:induction false} ChainHasNoGain(coins: seq<Coin>, c: Coin, amount: nat)
    requires DivisorChain(coins) && c in coins && c <= amount
    ensures Count(coins, amount) <= Count(coins, amount - c) + 1
    decreases |coins|, amount
  {
    var d := coins[0];
    ChainHeadIsLargest(coins, c);
    if c < d {
      ChainTail(coins);
      assert c in coins[1..] && Multiple(coins[0], coins[1]);
      if amount < d {
        ChainHasNoGain(coins[1..], c, amount);
      } else if amount - c >= d {
        ChainHasNoGain(coins, c, amount - d);
      } else {
        FillingUpCosts(coins[1..], amount - d, c, d);
        assert Count(coins, amount) == 1 + Count(coins, amount - d);
        assert Count(coins, amount - d) == Count(coins[1..], amount - d);
        assert Count(coins, amount - c) == Count(coins[1..], amount - c);
      }
    }
  }

  /** Greedy is optimal for every amount when each coin is a multiple of the next smaller one, down to 1. */
  lemma {:induction false} ChainIsOptimal(coins: seq<Coin>, amount: nat)
    requires DivisorChain(coins) && 1 in coins
    ensures Optimal(coins, amount)
  {
    forall c, n: nat | c in coins && c <= n ensures Count(coins, n) <= Count(coins, n - c) + 1 {
      ChainHasNoGain(coins, c, n);
    }
    OptimalExactlyWhenNoGain(coins);
  }

  // ---------- the system of the source: 20, 10, 5, 2, 1, which is not such a chain ----------

  const SYSTEM: seq<Coin> := [20, 10, 5, 2, 1]

  lemma {:induction false} InsertLast(c: Coin, s: seq<Coin>)
    requires forall i | 0 <= i < |s| :: c < s[i]
    ensures Insert(ByValue(), c, s) == s + [c]
  {
    if s != [] {
      InsertLast(c, s[1..]);
    }
  }

  /** A list that starts with its smallest coin, one step of the sort. */
  lemma {:induction false} SortedWithFirst(list: seq<Coin>, sorted: seq<Coin>)
    requires list != [] && SortDescending(ByValue(), list[1..]) == sorted
    requires forall i | 0 <= i < |sorted| :: list[0] < sorted[i]
    ensures SortDescending(ByValue(), list) == sorted + [list[0]]
  {
    InsertLast(list[0], sorted);
  }

  lemma {:induction false} SortedTail()
    ensures SortDescending(ByValue(), [5, 10, 20]) == [20, 10, 5]
  {
    assert [5, 10, 20][1..] == [10, 20] && [10, 20][1..] == [20] && [20][1..] == [];
    assert SortDescending(ByValue(), []) == [];
    hide SortDescending;
    SortedWithFirst([20], []);
    SortedWithFirst([10, 20], [20]);
    SortedWithFirst([5, 10, 20], [20, 10]);
  }

  /** The list of the source, sorted. */
  lemma {:induction false} SystemIsSorted()
    ensures SortDescending(ByValue(), [1, 2, 5, 10, 20]) == SYSTEM
  {
    hide SortDescending;
    assert [1, 2, 5, 10, 20][1..] == [2, 5, 10, 20] && [2, 5, 10, 20][1..] == [5, 10, 20];
    SortedTail();
    SortedWithFirst([2, 5, 10, 20], [20, 10, 5]);
    SortedWithFirst([1, 2, 5, 10, 20], [20, 10, 5, 2]);
  }

  /** How many coins greedy takes for 0, ..., 19. */
  const SMALL: seq<nat> := [0, 1, 1, 2, 2, 1, 2, 2, 3, 3, 1, 2, 2, 3, 3, 2, 3, 3, 4, 4]

  lemma {:induction false} OnesAndTwos(n: nat)
    requires n < 5
    ensures Count([2, 1], n) == SMALL[n]
  {
    assert [2, 1][1..] == [1] && [1][1..] == [];
    assert Count([1], 0) == 0 && Count([1], 1) == 1;
    assert Count([2, 1], 0) == 0 && Count([2, 1], 1) == 1;
    assert Count([2, 1], 2) == 1 && Count([2, 1], 3) == 2;
    assert Count([2, 1], 4) == 2;
  }

  lemma {:induction false} SmallCount(n: nat)
    requires n < 20
    ensures Count([10, 5, 2, 1], n) == SMALL[n]
  {
    assert [10, 5, 2, 1][1..] == [5, 2, 1] && [5, 2, 1][1..] == [2, 1];
    if n < 5 {
      OnesAndTwos(n);
      assert Count([10, 5, 2, 1], n) == Count([5, 2, 1], n) == Count([2, 1], n);
    } else if n < 10 {
      OnesAndTwos(n - 5);
      assert Count([10, 5, 2, 1], n) == Count([5, 2, 1], n) == 1 + Count([5, 2, 1], n - 5);
      assert Count([5, 2, 1], n - 5) == Count([2, 1], n - 5);
    } else {
      SmallCount(n - 10);
      assert Count([10, 5, 2, 1], n) == 1 + Count([10, 5, 2, 1], n - 10);
    }
  }

  lemma {:induction false} SmallHasNoGain(c: nat, n: nat)
    requires c in {1, 2, 5, 10} && c <= n < 20
    ensures SMALL[n] <= SMALL[n - c] + 1
  {
  }

  lemma {:induction false} SmallWraps(c: nat, r: nat)
    requires c in {1, 2, 5, 10} && r < c
    ensures SMALL[r] <= SMALL[r + 20 - c]
  {
  }

  lemma {:induction false} SystemHasNoGain(c: Coin, n: nat)
    requires c in SYSTEM && c <= n
    ensures Count(SYSTEM, n) <= Count(SYSTEM, n - c) + 1
  {
    assert SYSTEM[1..] == [10, 5, 2, 1];
    if c < 20 {
      if n - c >= 20 {
        SystemHasNoGain(c, n - 20);
      } else if n < 20 {
        SmallCount(n);
        SmallCount(n - c);
        SmallHasNoGain(c, n);
      } else {
        SmallWraps(c, n - 20);
        SmallCount(n - 20);
        SmallCount(n - c);
        assert Count(SYSTEM, n) == 1 + Count(SYSTEM, n - 20) == 1 + Count([10, 5, 2, 1], n - 20);
      }
    }
  }

  /** For the coins 1, 2, 5, 10, 20 greedy uses the fewest coins for every amount. */
  lemma {:induction false} SystemIsOptimal(amount: nat)
    ensures Optimal(SYSTEM, amount)
  {
    forall c, n: nat | c in SYSTEM && c <= n ensures Count(SYSTEM, n) <= Count(SYSTEM, n - c) + 1 {
      SystemHasNoGain(c, n);
    }
    OptimalExactlyWhenNoGain(SYSTEM);
  }

  /** Not every system is like that: with 4, 3, 1 greedy pays 6 with three coins where two do. */
  lemma {:induction false} SomeSystemIsNotOptimal()
    ensures !Optimal([4, 3, 1], 6)
  {
    assert [4, 3, 1][1..] == [3, 1] && [3, 1][1..] == [1] && [1][1..] == [];
    assert Count([1], 2) == 2 && Count([3, 1], 2) == 2 && Count([4, 3, 1], 6) == 3;
    var payment: seq<Coin> := [3, 3];
    assert payment[1..] == [3] && payment[1..][1..] == [];
    assert Total(payment) == 6;
  }
}
