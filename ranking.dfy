/**
 The ordering shared by the three scripts that rank runs: Python's `sorted(xs, key=...)`,
 ascending or with `reverse=True`, which is stable in both directions, and the
 `enumerate(sorted_results, 1)` loops that number the ranking lines from 1.
 */
module Ranking {

  /** `a` may stand before `b` in the requested direction. */
  predicate InOrder(a: real, b: real, descending: bool)
  {
    if descending then a >= b else a <= b
  }

  /** The keys of `s` follow the requested direction. */
  ghost predicate Ordered<T>(s: seq<T>, key: T -> real, descending: bool)
  {
    forall i, j :: 0 <= i < j < |s| ==> InOrder(key(s[i]), key(s[j]), descending)
  }

  /** The elements of `s` whose key is `v`, in their order in `s`. */
  function WithKey<T>(s: seq<T>, key: T -> real, v: real): seq<T>
  {
    if s == [] then [] else (if key(s[0]) == v then [s[0]] else []) + WithKey(s[1..], key, v)
  }

  /** Elements with equal keys keep their relative order from `xs` in `r`. */
  ghost predicate KeepsTies<T>(xs: seq<T>, r: seq<T>, key: T -> real)
  {
    forall v :: WithKey(r, key, v) == WithKey(xs, key, v)
  }

  /** Puts `x` before the first element of `s` that is not strictly ahead of it, so that
      `x` comes before the elements of `s` that tie with it. */
  function Insert<T>(x: T, s: seq<T>, key: T -> real, descending: bool): seq<T>
  {
    if s == [] || InOrder(key(x), key(s[0]), descending) then [x] + s
    else [s[0]] + Insert(x, s[1..], key, descending)
  }

  /** `y` may stand before every element of `s`. */
  ghost predicate Ahead<T>(y: T, s: seq<T>, key: T -> real, descending: bool)
  {
    forall k :: 0 <= k < |s| ==> InOrder(key(y), key(s[k]), descending)
  }

  lemma OrderedCons<T>(y: T, s: seq<T>, key: T -> real, descending: bool)
    requires Ahead(y, s, key, descending) && Ordered(s, key, descending)
    ensures Ordered([y] + s, key, descending)
  {
    var r := [y] + s;
    forall i, j | 0 <= i < j < |r| ensures InOrder(key(r[i]), key(r[j]), descending) {
      assert r[j] == s[j - 1];
      if i > 0 {
        assert r[i] == s[i - 1];
      }
    }
  }

  lemma OrderedHead<T>(s: seq<T>, key: T -> real, descending: bool)
    requires s != [] && Ordered(s, key, descending)
    ensures Ahead(s[0], s[1..], key, descending) && Ordered(s[1..], key, descending)
  {
    forall k | 0 <= k < |s| - 1 ensures InOrder(key(s[0]), key(s[1..][k]), descending) {
      assert s[1..][k] == s[k + 1];
    }
    forall i, j | 0 <= i < j < |s| - 1 ensures InOrder(key(s[1..][i]), key(s[1..][j]), descending) {
      assert s[1..][i] == s[i + 1] && s[1..][j] == s[j + 1];
    }
  }

  lemma {:induction false} InsertPermutes<T>(x: T, s: seq<T>, key: T -> real, descending: bool)
    ensures multiset(Insert(x, s, key, descending)) == multiset(s) + multiset{x}
  {
    if s != [] && !InOrder(key(x), key(s[0]), descending) {
      InsertPermutes(x, s[1..], key, descending);
      assert s == [s[0]] + s[1..];
    }
  }

  /** An element ahead of `x` and of all of `s` stays ahead of all of `Insert(x, s)`. */
  lemma {:induction false} InsertAhead<T>(y: T, x: T, s: seq<T>, key: T -> real, descending: bool)
    requires InOrder(key(y), key(x), descending) && Ahead(y, s, key, descending)
    ensures Ahead(y, Insert(x, s, key, descending), key, descending)
  {
    var r := Insert(x, s, key, descending);
    if s == [] || InOrder(key(x), key(s[0]), descending) {
      forall k | 0 <= k < |r| ensures InOrder(key(y), key(r[k]), descending) {
        if k > 0 {
          assert r[k] == s[k - 1];
        }
      }
    } else {
      var tail := Insert(x, s[1..], key, descending);
      assert Ahead(y, s[1..], key, descending) by {
        forall k | 0 <= k < |s| - 1 ensures InOrder(key(y), key(s[1..][k]), descending) {
          assert s[1..][k] == s[k + 1];
        }
      }
      InsertAhead(y, x, s[1..], key, descending);
      forall k | 0 <= k < |r| ensures InOrder(key(y), key(r[k]), descending) {
        if k > 0 {
          assert r[k] == tail[k - 1];
        }
      }
    }
  }

  lemma {:induction false} InsertOrdered<T>(x: T, s: seq<T>, key: T -> real, descending: bool)
    requires Ordered(s, key, descending)
    ensures Ordered(Insert(x, s, key, descending), key, descending)
  {
    if s == [] || InOrder(key(x), key(s[0]), descending) {
      assert Ahead(x, s, key, descending) by {
        forall k | 0 <= k < |s| ensures InOrder(key(x), key(s[k]), descending) {
          if k > 0 {
            assert InOrder(key(s[0]), key(s[k]), descending);
          }
        }
      }
      OrderedCons(x, s, key, descending);
    } else {
      OrderedHead(s, key, descending);
      InsertOrdered(x, s[1..], key, descending);
      InsertAhead(s[0], x, s[1..], key, descending);
      OrderedCons(s[0], Insert(x, s[1..], key, descending), key, descending);
    }
  }

  lemma WithKeyCons<T>(y: T, s: seq<T>, key: T -> real, v: real)
    ensures WithKey([y] + s, key, v) == (if key(y) == v then [y] else []) + WithKey(s, key, v)
  {
    assert ([y] + s)[1..] == s;
  }

  lemma {:induction false} InsertKeepsTies<T>(x: T, s: seq<T>, key: T -> real, descending: bool, v: real)
    ensures WithKey(Insert(x, s, key, descending), key, v)
         == (if key(x) == v then [x] else []) + WithKey(s, key, v)
  {
    if s == [] || InOrder(key(x), key(s[0]), descending) {
      WithKeyCons(x, s, key, v);
    } else {
      var tail := Insert(x, s[1..], key, descending);
      InsertKeepsTies(x, s[1..], key, descending, v);
      WithKeyCons(s[0], tail, key, v);
      WithKeyCons(s[0], s[1..], key, v);
      assert s == [s[0]] + s[1..];
      if key(x) == v {
        assert key(s[0]) != v;
      }
    }
  }

  /** `sorted(xs, key=key, reverse=descending)`: an insertion sort that inserts each element
      in front of the later ones it ties with. */
  function StableSort<T>(xs: seq<T>, key: T -> real, descending: bool): seq<T>
  {
    if xs == [] then [] else Insert(xs[0], StableSort(xs[1..], key, descending), key, descending)
  }

  lemma {:induction false} StableSortPermutes<T>(xs: seq<T>, key: T -> real, descending: bool)
    ensures multiset(StableSort(xs, key, descending)) == multiset(xs)
  {
    if xs != [] {
      StableSortPermutes(xs[1..], key, descending);
      InsertPermutes(xs[0], StableSort(xs[1..], key, descending), key, descending);
      assert xs == [xs[0]] + xs[1..];
    }
  }

  lemma {:induction false} StableSortOrdered<T>(xs: seq<T>, key: T -> real, descending: bool)
    ensures Ordered(StableSort(xs, key, descending), key, descending)
  {
    if xs != [] {
      StableSortOrdered(xs[1..], key, descending);
      InsertOrdered(xs[0], StableSort(xs[1..], key, descending), key, descending);
    }
  }

  lemma {:induction false} StableSortKeepsTies<T>(xs: seq<T>, key: T -> real, descending: bool, v: real)
    ensures WithKey(StableSort(xs, key, descending), key, v) == WithKey(xs, key, v)
  {
    if xs != [] {
      StableSortKeepsTies(xs[1..], key, descending, v);
      InsertKeepsTies(xs[0], StableSort(xs[1..], key, descending), key, descending, v);
      WithKeyCons(xs[0], xs[1..], key, v);
      assert xs == [xs[0]] + xs[1..];
    }
  }

  /** The ranking is a permutation of its input, follows the keys in the requested direction,
      and keeps elements with equal keys in their input order. */
  lemma StableSortCorrect<T>(xs: seq<T>, key: T -> real, descending: bool)
    ensures multiset(StableSort(xs, key, descending)) == multiset(xs)
    ensures |StableSort(xs, key, descending)| == |xs|
    ensures Ordered(StableSort(xs, key, descending), key, descending)
    ensures KeepsTies(xs, StableSort(xs, key, descending), key)
  {
    StableSortPermutes(xs, key, descending);
    assert |multiset(StableSort(xs, key, descending))| == |multiset(xs)|;
    StableSortOrdered(xs, key, descending);
    forall v ensures WithKey(StableSort(xs, key, descending), key, v) == WithKey(xs, key, v) {
      StableSortKeepsTies(xs, key, descending, v);
    }
  }

  lemma {:induction false} WithKeyMembers<T>(s: seq<T>, key: T -> real, v: real, y: T)
    ensures y in WithKey(s, key, v) <==> y in s && key(y) == v
  {
    if s != [] {
      WithKeyMembers(s[1..], key, v, y);
      assert s == [s[0]] + s[1..];
    }
  }

  lemma WithKeyHead<T>(s: seq<T>, key: T -> real)
    requires s != []
    ensures WithKey(s, key, key(s[0])) != []
  {
  }

  /** The two orders agree on their first element once they agree on ties. */
  lemma SameHead<T>(a: seq<T>, b: seq<T>, key: T -> real, descending: bool)
    requires a != [] && b != []
    requires Ordered(a, key, descending) && Ordered(b, key, descending) && KeepsTies(a, b, key)
    ensures a[0] == b[0]
  {
    var ka, kb := key(a[0]), key(b[0]);
    assert WithKey(b, key, kb)[0] == b[0];
    WithKeyMembers(a, key, kb, b[0]);
    var i :| 0 <= i < |a| && a[i] == b[0];
    assert InOrder(ka, kb, descending);
    assert WithKey(a, key, ka)[0] == a[0];
    WithKeyMembers(b, key, ka, a[0]);
    var j :| 0 <= j < |b| && b[j] == a[0];
    assert InOrder(kb, ka, descending);
    assert ka == kb;
  }

  /** Sorting with ties kept in input order has exactly one outcome: any ordered sequence
      that keeps the ties of `xs` is `StableSort(xs, ...)`. So the insertion sort above gives
      the same ranking as Python's `sorted`, whatever algorithm that uses. */
  lemma {:induction false} StableOrderUnique<T>(a: seq<T>, b: seq<T>, key: T -> real, descending: bool)
    requires Ordered(a, key, descending) && Ordered(b, key, descending) && KeepsTies(a, b, key)
    ensures a == b
  {
    if a == [] && b != [] {
      WithKeyHead(b, key);
      assert false;
    } else if a != [] && b == [] {
      WithKeyHead(a, key);
      assert false;
    } else if a != [] {
      SameHead(a, b, key, descending);
      forall v ensures WithKey(a[1..], key, v) == WithKey(b[1..], key, v) {
        var h: seq<T> := if key(a[0]) == v then [a[0]] else [];
        assert WithKey(a, key, v) == h + WithKey(a[1..], key, v);
        assert WithKey(b, key, v) == h + WithKey(b[1..], key, v);
        assert WithKey(a[1..], key, v) == (h + WithKey(a[1..], key, v))[|h|..];
        assert WithKey(b[1..], key, v) == (h + WithKey(b[1..], key, v))[|h|..];
      }
      StableOrderUnique(a[1..], b[1..], key, descending);
      assert a == [a[0]] + a[1..] && b == [b[0]] + b[1..];
    }
  }

  /** A rank line: its 1-based position and what it shows. */
  datatype Ranked<T> = Ranked(rank: nat, item: T)

  /** `for idx, item in enumerate(items, 1)`: numbers the items 1..n in their order. */
  method Enumerate<T>(items: seq<T>) returns (rows: seq<Ranked<T>>)
    ensures |rows| == |items|
    ensures forall i :: 0 <= i < |rows| ==> rows[i].rank == i + 1 && rows[i].item == items[i]
  {
    rows := [];
    var idx := 0;
    while idx < |items|
      invariant 0 <= idx <= |items| && |rows| == idx
      invariant forall i :: 0 <= i < idx ==> rows[i].rank == i + 1 && rows[i].item == items[i]
    {
      rows := rows + [Ranked(idx + 1, items[idx])];
      idx := idx + 1;
    }
  }

  /** What the rank lines show, in order. */
  function Items<T>(rows: seq<Ranked<T>>): (r: seq<T>)
    ensures |r| == |rows| && forall i :: 0 <= i < |rows| ==> r[i] == rows[i].item
  {
    if rows == [] then [] else [rows[0].item] + Items(rows[1..])
  }

  /** `sorted(xs, key=key, reverse=descending)` followed by `enumerate(..., 1)`: the lines are
      numbered 1..n and show a permutation of `xs` that follows the keys and keeps ties in
      input order. */
  method RankRows<T>(xs: seq<T>, key: T -> real, descending: bool) returns (rows: seq<Ranked<T>>)
    ensures |rows| == |xs|
    ensures forall i :: 0 <= i < |rows| ==> rows[i].rank == i + 1
    ensures Items(rows) == StableSort(xs, key, descending)
    ensures multiset(Items(rows)) == multiset(xs)
    ensures Ordered(Items(rows), key, descending)
    ensures KeepsTies(xs, Items(rows), key)
  {
    var sortedItems := StableSort(xs, key, descending);
    StableSortCorrect(xs, key, descending);
    rows := Enumerate(sortedItems);
    assert Items(rows) == sortedItems;
  }
}
