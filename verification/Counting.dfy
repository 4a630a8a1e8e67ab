/** Dictionaries of counts, their totals, and the first least-loaded position of a list of totals. */
module Counting {

  type Counts = map<string, nat>

  function Get(m: Counts, key: string): nat {
    if key in m then m[key] else 0
  }

  /** `sum(m.values())` */
  ghost function SumValues(m: Counts): nat {
    if m == map[] then 0
    else
      var key :| key in m;
      m[key] + SumValues(m - {key})
  }

  lemma {:induction false} SumValuesSplit(m: Counts, key: string)
    requires key in m
    ensures SumValues(m) == m[key] + SumValues(m - {key})
  {
    var k :| k in m && SumValues(m) == m[k] + SumValues(m - {k});
    if k != key {
      SumValuesSplit(m - {k}, key);
      SumValuesSplit(m - {key}, k);
      assert m - {k} - {key} == m - {key} - {k};
    }
  }

  lemma {:induction false} SumValuesUpdate(m: Counts, key: string, n: nat)
    ensures SumValues(m[key := n]) + Get(m, key) == SumValues(m) + n
  {
    SumValuesSplit(m[key := n], key);
    if key in m {
      SumValuesSplit(m, key);
      assert m[key := n] - {key} == m - {key};
    } else {
      assert m[key := n] - {key} == m;
    }
  }

  lemma {:induction false} SumValuesRemove(m: Counts, key: string)
    ensures SumValues(m - {key}) + Get(m, key) == SumValues(m)
  {
    if key in m {
      SumValuesSplit(m, key);
    } else {
      assert m - {key} == m;
    }
  }

  method SumOf(m: Counts) returns (total: nat)
    ensures total == SumValues(m)
  {
    total := 0;
    var rest := m;
    while rest != map[]
      invariant total + SumValues(rest) == SumValues(m)
      decreases |rest|
    {
      var key :| key in rest;
      SumValuesSplit(rest, key);
      total := total + rest[key];
      assert |rest - {key}| < |rest| by {
        assert (rest - {key}).Keys == rest.Keys - {key};
      }
      rest := rest - {key};
    }
  }

  // ---------- division by repeated subtraction, which keeps proofs linear ----------

  /** m / n */
  function Quot(m: nat, n: nat): nat
    requires n > 0
  {
    if m < n then 0 else Quot(m - n, n) + 1
  }

  /** m % n */
  function Rem(m: nat, n: nat): (r: nat)
    requires n > 0
    ensures r < n
  {
    if m < n then m else Rem(m - n, n)
  }

  lemma {:induction false} QuotRemSplit(m: nat, n: nat)
    requires n > 0
    ensures m == Quot(m, n) * n + Rem(m, n)
  {
    if m >= n {
      QuotRemSplit(m - n, n);
      NextMultiple(Quot(m - n, n), n);
    }
  }

  lemma {:induction false} QuotRemMeaning(m: nat, n: nat)
    requires n > 0
    ensures Quot(m, n) == m / n && Rem(m, n) == m % n
  {
    QuotRemSplit(m, n);
    var d := m / n - Quot(m, n);
    assert m == (m / n) * n + m % n;
    assert d * n == (m / n) * n - Quot(m, n) * n;
    assert d >= 1 ==> d * n >= n;
    assert d <= -1 ==> d * n + n <= 0;
  }

  lemma {:induction false} NextQuotRem(m: nat, n: nat)
    requires n > 0
    ensures Rem(m, n) + 1 < n ==> Quot(m + 1, n) == Quot(m, n) && Rem(m + 1, n) == Rem(m, n) + 1
    ensures Rem(m, n) + 1 == n ==> Quot(m + 1, n) == Quot(m, n) + 1 && Rem(m + 1, n) == 0
  {
    if m >= n {
      NextQuotRem(m - n, n);
    }
  }

  // ---------- lists of totals ----------

  function Sum(levels: seq<nat>): nat {
    if levels == [] then 0 else levels[0] + Sum(levels[1..])
  }

  lemma {:induction false} SumAppend(levels: seq<nat>, level: nat)
    ensures Sum(levels + [level]) == Sum(levels) + level
  {
    if levels != [] {
      assert (levels + [level])[1..] == levels[1..] + [level];
      SumAppend(levels[1..], level);
    }
  }

  lemma {:induction false} SumPlus(s: seq<nat>, t: seq<nat>, both: seq<nat>)
    requires |s| == |t| == |both| && forall i | 0 <= i < |s| :: both[i] == s[i] + t[i]
    ensures Sum(both) == Sum(s) + Sum(t)
  {
    if s != [] {
      SumPlus(s[1..], t[1..], both[1..]);
    }
  }

  lemma {:induction false} SumUpdate(levels: seq<nat>, i: nat, n: nat)
    requires i < |levels|
    ensures Sum(levels[i := n]) + levels[i] == Sum(levels) + n
  {
    if i == 0 {
      assert levels[i := n][1..] == levels[1..];
    } else {
      assert levels[i := n][1..] == levels[1..][i - 1 := n];
      SumUpdate(levels[1..], i - 1, n);
    }
  }

  /** b holds the least total, and is the first position that does. */
  ghost predicate IsFirstLeast(levels: seq<nat>, b: nat) {
    && b < |levels|
    && (forall i | 0 <= i < |levels| :: levels[b] <= levels[i])
    && (forall i | 0 <= i < b :: levels[b] < levels[i])
  }

  function FirstLeastAmong(levels: seq<nat>, k: nat): (b: nat)
    requires 0 < k <= |levels|
    ensures IsFirstLeast(levels[..k], b)
  {
    if k == 1 then 0
    else
      var b := FirstLeastAmong(levels, k - 1);
      assert levels[..k - 1] == levels[..k][..k - 1];
      if levels[k - 1] < levels[b] then k - 1 else b
  }

  function FirstLeast(levels: seq<nat>): (b: nat)
    requires levels != []
    ensures IsFirstLeast(levels, b)
  {
    assert levels[..|levels|] == levels;
    FirstLeastAmong(levels, |levels|)
  }

  lemma {:induction false} FirstLeastIsUnique(levels: seq<nat>, b: nat)
    requires IsFirstLeast(levels, b)
    ensures FirstLeast(levels) == b
  {
    var c := FirstLeast(levels);
    assert levels[b] <= levels[c] && levels[c] <= levels[b];
  }

  lemma {:induction false} CountCons(levels: seq<nat>, v: nat)
    requires levels != []
    ensures multiset(levels)[v] == multiset(levels[1..])[v] + if levels[0] == v then 1 else 0
  {
    assert levels == [levels[0]] + levels[1..];
  }

  lemma {:induction false} NextMultiple(n: nat, q: nat)
    ensures (n + 1) * q == n * q + q
  {
  }

  /** When all totals are q or q+1, their sum tells how many are q+1. */
  lemma {:induction false} HowManyHigh(levels: seq<nat>, q: nat)
    requires forall i | 0 <= i < |levels| :: q <= levels[i] <= q + 1
    ensures Sum(levels) == |levels| * q + multiset(levels)[q + 1]
    ensures multiset(levels)[q] + multiset(levels)[q + 1] == |levels|
  {
    if levels != [] {
      HowManyHigh(levels[1..], q);
      CountCons(levels, q);
      CountCons(levels, q + 1);
      NextMultiple(|levels| - 1, q);
    }
  }

  /** Hence, the counts of a list of totals that are all q or q+1. */
  lemma {:induction false} HighCount(levels: seq<nat>, total: nat)
    requires levels != [] && Sum(levels) == total
    requires forall i | 0 <= i < |levels| :: Quot(total, |levels|) <= levels[i] <= Quot(total, |levels|) + 1
    ensures multiset(levels)[Quot(total, |levels|) + 1] == Rem(total, |levels|)
    ensures multiset(levels)[Quot(total, |levels|)] == |levels| - Rem(total, |levels|)
  {
    hide Quot, Rem, Sum;
    HowManyHigh(levels, Quot(total, |levels|));
    QuotRemSplit(total, |levels|);
  }
}
