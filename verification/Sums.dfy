/** Totals of a measure over a list and over a list of lists, and the counting arguments built on them. */
module Sums {

  function Sum<T>(f: T -> nat, s: seq<T>): nat {
    if s == [] then 0 else f(s[0]) + Sum(f, s[1..])
  }

  /** The total over all nodes of a placement. */
  function Total<T>(f: T -> nat, lists: seq<seq<T>>): nat {
    if lists == [] then 0 else Sum(f, lists[0]) + Total(f, lists[1..])
  }

  function Flatten<T>(lists: seq<seq<T>>): seq<T> {
    if lists == [] then [] else lists[0] + Flatten(lists[1..])
  }

  lemma {:induction false} SumConcat<T>(f: T -> nat, s: seq<T>, t: seq<T>)
    ensures Sum(f, s + t) == Sum(f, s) + Sum(f, t)
  {
    if s == [] {
      assert s + t == t;
    } else {
      assert (s + t)[1..] == s[1..] + t;
      SumConcat(f, s[1..], t);
    }
  }

  lemma {:induction false} SumAppend<T>(f: T -> nat, s: seq<T>, x: T)
    ensures Sum(f, s + [x]) == Sum(f, s) + f(x)
  {
    SumConcat(f, s, [x]);
  }

  /** Cutting one element out of a list. */
  lemma {:induction false} SumWithout<T>(f: T -> nat, s: seq<T>, k: nat)
    requires k < |s|
    ensures Sum(f, s) == f(s[k]) + Sum(f, s[..k] + s[k + 1..])
  {
    assert s == s[..k] + ([s[k]] + s[k + 1..]);
    SumConcat(f, s[..k], [s[k]] + s[k + 1..]);
    SumConcat(f, s[..k], s[k + 1..]);
    assert ([s[k]] + s[k + 1..])[1..] == s[k + 1..];
  }

  lemma {:induction false} SameWithout<T>(s: seq<T>, t: seq<T>, k: nat)
    requires multiset(s) == multiset(t) && s != [] && k < |t| && t[k] == s[0]
    ensures multiset(s[1..]) == multiset(t[..k] + t[k + 1..])
  {
    var rest := t[..k] + t[k + 1..];
    assert s == [s[0]] + s[1..];
    assert t == t[..k] + ([t[k]] + t[k + 1..]);
    assert multiset(t) == multiset(rest) + multiset{t[k]};
    assert multiset(s[1..]) == multiset(s) - multiset{s[0]};
  }

  /** Only the multiset of a list matters for its total. */
  lemma {:induction false} SumOfMultiset<T>(f: T -> nat, s: seq<T>, t: seq<T>)
    requires multiset(s) == multiset(t)
    ensures Sum(f, s) == Sum(f, t)
  {
    if s == [] {
      assert |t| == |multiset(t)|;
    } else {
      assert s[0] in multiset(t);
      var k :| 0 <= k < |t| && t[k] == s[0];
      SumWithout(f, t, k);
      SameWithout(s, t, k);
      SumOfMultiset(f, s[1..], t[..k] + t[k + 1..]);
    }
  }

  lemma {:induction false} TotalIsSumOfFlatten<T>(f: T -> nat, lists: seq<seq<T>>)
    ensures Total(f, lists) == Sum(f, Flatten(lists))
  {
    if lists != [] {
      TotalIsSumOfFlatten(f, lists[1..]);
      SumConcat(f, lists[0], Flatten(lists[1..]));
    }
  }

  /** Appending one element to one list moves exactly that element into the flattened multiset. */
  lemma {:induction false} FlattenAppend<T>(lists: seq<seq<T>>, b: nat, x: T)
    requires b < |lists|
    ensures multiset(Flatten(lists[b := lists[b] + [x]])) == multiset(Flatten(lists)) + multiset{x}
  {
    var after := lists[b := lists[b] + [x]];
    if b == 0 {
      assert after[1..] == lists[1..];
    } else {
      assert after[1..] == lists[1..][b - 1 := lists[1..][b - 1] + [x]];
      FlattenAppend(lists[1..], b - 1, x);
    }
  }

  lemma {:induction false} TotalAppend<T>(f: T -> nat, lists: seq<seq<T>>, b: nat, x: T)
    requires b < |lists|
    ensures Total(f, lists[b := lists[b] + [x]]) == Total(f, lists) + f(x)
  {
    var after := lists[b := lists[b] + [x]];
    FlattenAppend(lists, b, x);
    assert multiset(Flatten(lists) + [x]) == multiset(Flatten(after));
    SumOfMultiset(f, Flatten(after), Flatten(lists) + [x]);
    SumAppend(f, Flatten(lists), x);
    TotalIsSumOfFlatten(f, lists);
    TotalIsSumOfFlatten(f, after);
  }

  lemma {:induction false} TotalOfPermutation<T>(f: T -> nat, lists: seq<seq<T>>, items: seq<T>)
    requires multiset(Flatten(lists)) == multiset(items)
    ensures Total(f, lists) == Sum(f, items)
  {
    TotalIsSumOfFlatten(f, lists);
    SumOfMultiset(f, Flatten(lists), items);
  }

  lemma {:induction false} TotalAtMost<T>(f: T -> nat, lists: seq<seq<T>>, bound: nat)
    requires forall i | 0 <= i < |lists| :: Sum(f, lists[i]) <= bound
    ensures Total(f, lists) <= |lists| * bound
  {
    if lists != [] {
      forall i | 0 <= i < |lists[1..]| ensures Sum(f, lists[1..][i]) <= bound {
        assert lists[1..][i] == lists[i + 1];
      }
      TotalAtMost(f, lists[1..], bound);
      assert |lists| * bound == |lists[1..]| * bound + bound;
    }
  }

  lemma {:induction false} TotalAtLeast<T>(f: T -> nat, lists: seq<seq<T>>, bound: nat)
    requires forall i | 0 <= i < |lists| :: Sum(f, lists[i]) >= bound
    ensures Total(f, lists) >= |lists| * bound
  {
    if lists != [] {
      forall i | 0 <= i < |lists[1..]| ensures Sum(f, lists[1..][i]) >= bound {
        assert lists[1..][i] == lists[i + 1];
      }
      TotalAtLeast(f, lists[1..], bound);
      assert |lists| * bound == |lists[1..]| * bound + bound;
    }
  }

  lemma {:induction false} SumMember<T>(f: T -> nat, s: seq<T>, x: T)
    requires x in s
    ensures f(x) <= Sum(f, s)
  {
    if s[0] != x {
      SumMember(f, s[1..], x);
    }
  }

  lemma {:induction false} TotalMember<T>(f: T -> nat, lists: seq<seq<T>>, i: nat)
    requires i < |lists|
    ensures Sum(f, lists[i]) <= Total(f, lists)
  {
    if i > 0 {
      TotalMember(f, lists[1..], i - 1);
    }
  }

  function Empties<T>(n: nat): seq<seq<T>> {
    seq(n, _ => [])
  }

  lemma {:induction false} FlattenOfEmpty<T>(f: T -> nat, n: nat)
    ensures Flatten<T>(Empties(n)) == []
    ensures Total(f, Empties(n)) == 0
  {
    if n > 0 {
      assert Empties<T>(n)[1..] == Empties(n - 1);
      FlattenOfEmpty(f, n - 1);
    }
  }

  lemma {:induction false} InFlatten<T>(lists: seq<seq<T>>, x: T)
    ensures x in Flatten(lists) <==> exists i :: 0 <= i < |lists| && x in lists[i]
  {
    if lists != [] {
      InFlatten(lists[1..], x);
      if x in Flatten(lists[1..]) {
        var i :| 0 <= i < |lists[1..]| && x in lists[1..][i];
        assert x in lists[i + 1];
      }
      if i :| 0 < i < |lists| && x in lists[i] {
        assert x in lists[1..][i - 1];
      }
    }
  }
}
