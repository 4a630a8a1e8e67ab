/** Python's `sorted(items, key=..., reverse=True)`: descending by key, equal keys in their original order. */
module StableSort {

  function Only<T>(p: T -> bool, s: seq<T>): seq<T> {
    if s == [] then [] else if p(s[0]) then [s[0]] + Only(p, s[1..]) else Only(p, s[1..])
  }

  function KeyIs<T>(key: T -> nat, k: nat): T -> bool {
    x => key(x) == k
  }

  ghost predicate Descending<T>(key: T -> nat, s: seq<T>) {
    forall i, j | 0 <= i < j < |s| :: key(s[i]) >= key(s[j])
  }

  /** Every element that satisfies p has key k. */
  ghost predicate OneKey<T(!new)>(key: T -> nat, k: nat, p: T -> bool) {
    forall x :: p(x) ==> key(x) == k
  }

  function Insert<T>(key: T -> nat, x: T, s: seq<T>): seq<T> {
    if s == [] || key(x) >= key(s[0]) then [x] + s else [s[0]] + Insert(key, x, s[1..])
  }

  function SortDescending<T>(key: T -> nat, s: seq<T>): seq<T> {
    if s == [] then [] else Insert(key, s[0], SortDescending(key, s[1..]))
  }

  lemma {:induction false} InsertPermutes<T>(key: T -> nat, x: T, s: seq<T>)
    ensures multiset(Insert(key, x, s)) == multiset{x} + multiset(s)
  {
    if !(s == [] || key(x) >= key(s[0])) {
      InsertPermutes(key, x, s[1..]);
      assert s == [s[0]] + s[1..];
    }
  }

  lemma {:induction false} SortPermutes<T>(key: T -> nat, s: seq<T>)
    ensures multiset(SortDescending(key, s)) == multiset(s)
  {
    if s != [] {
      SortPermutes(key, s[1..]);
      InsertPermutes(key, s[0], SortDescending(key, s[1..]));
      assert s == [s[0]] + s[1..];
    }
  }

  lemma {:induction false} InsertKeepsDescending<T>(key: T -> nat, x: T, s: seq<T>)
    requires Descending(key, s)
    ensures Descending(key, Insert(key, x, s))
  {
    if !(s == [] || key(x) >= key(s[0])) {
      var tail := Insert(key, x, s[1..]);
      InsertKeepsDescending(key, x, s[1..]);
      InsertPermutes(key, x, s[1..]);
      forall y | y in tail ensures key(s[0]) >= key(y) {
        assert y in multiset(tail);
        assert y == x || y in s[1..];
      }
    }
  }

  lemma {:induction false} SortDescends<T>(key: T -> nat, s: seq<T>)
    ensures Descending(key, SortDescending(key, s))
  {
    if s != [] {
      SortDescends(key, s[1..]);
      InsertKeepsDescending(key, s[0], SortDescending(key, s[1..]));
    }
  }

  lemma {:induction false} InsertIsStable<T(!new)>(key: T -> nat, k: nat, p: T -> bool, x: T, s: seq<T>)
    requires OneKey(key, k, p)
    requires Descending(key, s)
    ensures Only(p, Insert(key, x, s)) == Only(p, [x]) + Only(p, s)
  {
    if s == [] || key(x) >= key(s[0]) {
      assert ([x] + s)[1..] == s;
    } else {
      InsertIsStable(key, k, p, x, s[1..]);
      if p(x) {
        assert !p(s[0]);
      }
      assert ([s[0]] + Insert(key, x, s[1..]))[1..] == Insert(key, x, s[1..]);
    }
  }

  /** Elements that share a key keep their relative order. */
  lemma {:induction false} SortIsStable<T(!new)>(key: T -> nat, k: nat, p: T -> bool, s: seq<T>)
    requires OneKey(key, k, p)
    ensures Only(p, SortDescending(key, s)) == Only(p, s)
  {
    if s != [] {
      SortIsStable(key, k, p, s[1..]);
      SortDescends(key, s[1..]);
      InsertIsStable(key, k, p, s[0], SortDescending(key, s[1..]));
    }
  }

  /** Wherever two elements of the list share a key, the earlier one is related to the later one. */
  ghost predicate TiesRelated<T>(key: T -> nat, related: (T, T) -> bool, s: seq<T>) {
    forall i, j | 0 <= i < j < |s| && key(s[i]) == key(s[j]) :: related(s[i], s[j])
  }

  lemma {:induction false} InsertKeepsTies<T>(key: T -> nat, related: (T, T) -> bool, x: T, s: seq<T>)
    requires Descending(key, s) && TiesRelated(key, related, s)
    requires forall y | y in s && key(x) == key(y) :: related(x, y)
    ensures TiesRelated(key, related, Insert(key, x, s))
  {
    var after := Insert(key, x, s);
    if s == [] || key(x) >= key(s[0]) {
      assert forall j | 0 < j < |after| :: after[j] == s[j - 1];
    } else {
      InsertKeepsTies(key, related, x, s[1..]);
      InsertPermutes(key, x, s[1..]);
      assert after == [s[0]] + after[1..];
      forall j | 0 < j < |after| && key(s[0]) == key(after[j]) ensures related(s[0], after[j]) {
        assert after[j] in multiset(after[1..]);
        assert after[j] == x || after[j] in s[1..];
      }
    }
  }

  /** Sorting does not change what holds between elements that share a key. */
  lemma {:induction false} SortKeepsTies<T>(key: T -> nat, related: (T, T) -> bool, s: seq<T>)
    requires TiesRelated(key, related, s)
    ensures TiesRelated(key, related, SortDescending(key, s))
  {
    if s != [] {
      var rest := SortDescending(key, s[1..]);
      SortKeepsTies(key, related, s[1..]);
      SortDescends(key, s[1..]);
      SortPermutes(key, s[1..]);
      forall y | y in rest && key(s[0]) == key(y) ensures related(s[0], y) {
        assert y in multiset(rest);
      }
      InsertKeepsTies(key, related, s[0], rest);
    }
  }

  lemma {:induction false} OnlyMembers<T>(p: T -> bool, s: seq<T>, x: T)
    ensures x in Only(p, s) <==> x in s && p(x)
  {
    if s != [] {
      OnlyMembers(p, s[1..], x);
    }
  }

  lemma {:induction false} SameClassesSameList<T>(key: T -> nat, s: seq<T>, t: seq<T>)
    requires Descending(key, s) && Descending(key, t)
    requires forall k: nat :: Only(KeyIs(key, k), s) == Only(KeyIs(key, k), t)
    ensures s == t
  {
    if s != [] {
      OnlyMembers(KeyIs(key, key(s[0])), s, s[0]);
      OnlyMembers(KeyIs(key, key(s[0])), t, s[0]);
      OnlyMembers(KeyIs(key, key(t[0])), t, t[0]);
      OnlyMembers(KeyIs(key, key(t[0])), s, t[0]);
      assert key(s[0]) == key(t[0]);
      assert Only(KeyIs(key, key(s[0])), s)[0] == s[0] && Only(KeyIs(key, key(s[0])), t)[0] == t[0];
      forall k: nat ensures Only(KeyIs(key, k), s[1..]) == Only(KeyIs(key, k), t[1..]) {
        var s', t' := Only(KeyIs(key, k), s), Only(KeyIs(key, k), t);
        assert Only(KeyIs(key, k), s[1..]) == if key(s[0]) == k then s'[1..] else s';
        assert Only(KeyIs(key, k), t[1..]) == if key(t[0]) == k then t'[1..] else t';
      }
      SameClassesSameList(key, s[1..], t[1..]);
    }
  }

  lemma {:induction false} SortOfSorted<T>(key: T -> nat, s: seq<T>)
    requires Descending(key, s)
    ensures SortDescending(key, s) == s
  {
    if s != [] {
      SortOfSorted(key, s[1..]);
      assert s == [s[0]] + s[1..];
    }
  }

  /** The documented behaviour of a stable descending sort has exactly one result, and SortDescending is it. */
  lemma {:induction false} SortIsTheStableOne<T(!new)>(key: T -> nat, s: seq<T>, t: seq<T>)
    ensures t == SortDescending(key, s) <==>
            Descending(key, t) && forall k: nat :: Only(KeyIs(key, k), t) == Only(KeyIs(key, k), s)
  {
    var sorted := SortDescending(key, s);
    SortDescends(key, s);
    forall k: nat ensures Only(KeyIs(key, k), sorted) == Only(KeyIs(key, k), s) {
      SortIsStable(key, k, KeyIs(key, k), s);
    }
    if Descending(key, t) && forall k: nat :: Only(KeyIs(key, k), t) == Only(KeyIs(key, k), s) {
      SameClassesSameList(key, sorted, t);
    }
  }
}
