/** Python's `sorted(xs, key=key, reverse=True)`: a stable sort into non-increasing key order.
    Python keeps equal-key elements in their input order even with `reverse=True`. */
module StableSort {

  predicate NonIncreasing<T>(xs: seq<T>, key: T -> real)
  {
    forall i, j :: 0 <= i < j < |xs| ==> key(xs[i]) >= key(xs[j])
  }

  /** The elements of `xs` whose key is `v`, in their order in `xs`. */
  function WithKey<T>(xs: seq<T>, key: T -> real, v: real): seq<T>
  {
    if |xs| == 0 then []
    else (if key(xs[0]) == v then [xs[0]] else []) + WithKey(xs[1..], key, v)
  }

  /** Places `x` in front of the first element whose key is not greater than its own. */
  function Insert<T>(x: T, xs: seq<T>, key: T -> real): (r: seq<T>)
    ensures |r| == |xs| + 1
    ensures forall e :: e in r ==> e == x || e in xs
  {
    if |xs| == 0 then [x]
    else if key(x) >= key(xs[0]) then [x] + xs
    else [xs[0]] + Insert(x, xs[1..], key)
  }

  function SortDescending<T>(xs: seq<T>, key: T -> real): (r: seq<T>)
    ensures |r| == |xs|
  {
    if |xs| == 0 then [] else Insert(xs[0], SortDescending(xs[1..], key), key)
  }

  lemma {:induction false} InsertSorted<T>(x: T, xs: seq<T>, key: T -> real)
    requires NonIncreasing(xs, key)
    ensures NonIncreasing(Insert(x, xs, key), key)
    decreases |xs|
  {
    if |xs| > 0 && key(x) < key(xs[0]) {
      InsertSorted(x, xs[1..], key);
      var r := Insert(x, xs, key);
      var rest := Insert(x, xs[1..], key);
      assert r == [xs[0]] + rest;
      forall i | 0 <= i < |xs[1..]|
        ensures key(xs[1..][i]) <= key(xs[0])
      {
        assert xs[1..][i] == xs[i + 1];
      }
      InsertBelow(x, xs[1..], key, key(xs[0]));
      forall i, j | 0 <= i < j < |r|
        ensures key(r[i]) >= key(r[j])
      {
        assert r[j] == rest[j - 1];
        if i > 0 {
          assert r[i] == rest[i - 1];
          assert key(rest[i - 1]) >= key(rest[j - 1]);
        } else {
          assert r[i] == xs[0];
          assert key(rest[j - 1]) <= key(xs[0]);
        }
      }
    }
  }

  /** Inserting an element no larger than a bound into a list bounded by it keeps the bound. */
  lemma InsertBelow<T>(x: T, xs: seq<T>, key: T -> real, b: real)
    requires key(x) <= b && forall i :: 0 <= i < |xs| ==> key(xs[i]) <= b
    ensures forall i :: 0 <= i < |Insert(x, xs, key)| ==> key(Insert(x, xs, key)[i]) <= b
  {
    var r := Insert(x, xs, key);
    forall i | 0 <= i < |r|
      ensures key(r[i]) <= b
    {
      var e := r[i];
      assert e in r;
      if e != x {
        assert e in xs;
        var m :| 0 <= m < |xs| && xs[m] == e;
      }
    }
  }

  lemma {:induction false} InsertPermutes<T>(x: T, xs: seq<T>, key: T -> real)
    ensures multiset(Insert(x, xs, key)) == multiset(xs) + multiset{x}
    decreases |xs|
  {
    if |xs| > 0 && key(x) < key(xs[0]) {
      InsertPermutes(x, xs[1..], key);
      assert xs == [xs[0]] + xs[1..];
    }
  }

  lemma WithKeyCons<T>(a: T, xs: seq<T>, key: T -> real, v: real)
    ensures WithKey([a] + xs, key, v) == (if key(a) == v then [a] else []) + WithKey(xs, key, v)
  {
    assert ([a] + xs)[0] == a && ([a] + xs)[1..] == xs;
  }

  lemma {:induction false} InsertStable<T>(x: T, xs: seq<T>, key: T -> real, v: real)
    ensures WithKey(Insert(x, xs, key), key, v) == (if key(x) == v then [x] else []) + WithKey(xs, key, v)
    decreases |xs|
  {
    if |xs| == 0 {
      WithKeyCons(x, xs, key, v);
    } else if key(x) >= key(xs[0]) {
      WithKeyCons(x, xs, key, v);
    } else {
      var rest := Insert(x, xs[1..], key);
      assert Insert(x, xs, key) == [xs[0]] + rest;
      InsertStable(x, xs[1..], key, v);
      WithKeyCons(xs[0], rest, key, v);
      WithKeyCons(xs[0], xs[1..], key, v);
      assert [xs[0]] + xs[1..] == xs;
      if key(x) == v {
        assert key(xs[0]) != v;
        assert WithKey(xs, key, v) == WithKey(xs[1..], key, v);
      } else {
        assert WithKey(rest, key, v) == WithKey(xs[1..], key, v);
      }
    }
  }

  /** The result is in non-increasing key order. */
  lemma {:induction false} SortedOrder<T>(xs: seq<T>, key: T -> real)
    ensures NonIncreasing(SortDescending(xs, key), key)
    decreases |xs|
  {
    if |xs| > 0 {
      SortedOrder(xs[1..], key);
      InsertSorted(xs[0], SortDescending(xs[1..], key), key);
    }
  }

  /** The result is a permutation of the input. */
  lemma {:induction false} SortedPermutes<T>(xs: seq<T>, key: T -> real)
    ensures multiset(SortDescending(xs, key)) == multiset(xs)
    decreases |xs|
  {
    if |xs| > 0 {
      SortedPermutes(xs[1..], key);
      InsertPermutes(xs[0], SortDescending(xs[1..], key), key);
      assert xs == [xs[0]] + xs[1..];
    }
  }

  /** Stability: for every key value, the elements with that key appear in the same order as in the input. */
  lemma {:induction false} SortedStable<T>(xs: seq<T>, key: T -> real, v: real)
    ensures WithKey(SortDescending(xs, key), key, v) == WithKey(xs, key, v)
    decreases |xs|
  {
    if |xs| > 0 {
      SortedStable(xs[1..], key, v);
      InsertStable(xs[0], SortDescending(xs[1..], key), key, v);
    }
  }

  /** Every element of the result comes from the input and every input element is in the result. */
  lemma SortedMembers<T>(xs: seq<T>, key: T -> real)
    ensures forall e :: e in SortDescending(xs, key) <==> e in xs
  {
    SortedPermutes(xs, key);
    var r := SortDescending(xs, key);
    forall e
      ensures e in r <==> e in xs
    {
      assert e in r <==> e in multiset(r);
      assert e in xs <==> e in multiset(xs);
    }
  }
}
